/**
 `Skyline` and `FlightController`: the mode machine, the arm flag and the remote-control
 channels, with whole calls as steps.
 */
module Flight {
  import opened Pid

  datatype Mode =
    | Disarmed | Disarming | Arming | Armed | TakeOff | TouchDown | Hover
    | Calibrating | RawControl | VelocityControl | PositionControl

  datatype Rc = Rc(roll: nat, pitch: nat, yaw: nat, throttle: nat)

  const IDLE := Rc(1500, 1500, 1500, 900)

  /** What the controllers send: roll and pitch, and the throttle, within their clamps. */
  predicate InClamps(rc: Rc) {
    1300 <= rc.roll <= 1700 && 1300 <= rc.pitch <= 1700 && rc.yaw == 1500 && 1100 <= rc.throttle <= 1900
  }

  /** What the controllers may send, as the centre of the throttle is not clamped. */
  predicate Steered(rc: Rc, centre: real) {
    InClamps(rc) || (rc.throttle == centre.Floor && InClamps(rc.(throttle := 1100)))
  }

  /** The documented range of the raw channels. */
  predicate InRawRange(rc: Rc) {
    1000 <= rc.roll <= 2000 && 1000 <= rc.pitch <= 2000 && 1000 <= rc.yaw <= 2000 && 1000 <= rc.throttle <= 2000
  }

  /** What is sent to the flight board: the channels, and the auxiliary channel that arms it. */
  datatype Frame = Frame(rc: Rc, aux1: nat)

  function ToFrame(rc: Rc, armed: bool): Frame {
    Frame(rc, if armed then 1800 else 1000)
  }

  /** The flight state as the board and the base see it. */
  datatype State = State(mode: Mode, armed: bool, rc: Rc)

  /** The modes that dispatched commands lead to. */
  predicate Reachable(mode: Mode) {
    mode in {Disarmed, Armed, TakeOff, RawControl, VelocityControl, PositionControl}
  }

  /**
   What holds between calls: the flag is set exactly outside of Disarmed, and the channels are
   idle unless a controller or the pilot is in charge, when they are in range.
   */
  predicate Safe(s: State) {
    && Reachable(s.mode)
    && (s.armed <==> s.mode != Disarmed)
    && (s.mode in {Disarmed, Armed, TakeOff} ==> s.rc == IDLE)
    && (s.rc == IDLE || InClamps(s.rc) || InRawRange(s.rc))
  }

  datatype Order = Arm | Disarm | StartTakeOff | StartRaw | StartVelocity | StartPosition

  /** The modes from which a flying mode may be entered: another flying mode, or TakeOff. */
  predicate MayFly(mode: Mode) {
    mode in {TakeOff, RawControl, VelocityControl, PositionControl}
  }

  /** What an order does to the flight state. */
  function Obey(s: State, order: Order): State {
    match order
    case Arm => if s.mode == Disarmed then State(Armed, true, IDLE) else s
    case Disarm => State(if s.mode == Disarming then Disarming else Disarmed, false, IDLE)
    case StartTakeOff => if s.mode == Armed then s.(mode := TakeOff) else s
    case StartRaw => if MayFly(s.mode) then s.(mode := RawControl) else s
    case StartVelocity => if MayFly(s.mode) then s.(mode := VelocityControl) else s
    case StartPosition => if MayFly(s.mode) then s.(mode := PositionControl) else s
  }

  lemma ObeySafely(s: State, order: Order)
    requires Safe(s)
    ensures Safe(Obey(s, order))
  {
  }

  class Skyline {
    var armed: bool
    var calibrateFlag: bool
    var roll: nat
    var pitch: nat
    var yaw: nat
    var throttle: nat

    constructor ()
      ensures !armed && !calibrateFlag && Channels() == IDLE
    {
      armed, calibrateFlag := false, false;
      roll, pitch, yaw, throttle := 1500, 1500, 1500, 1000;
      new;
      SetIdle();
    }

    function Channels(): Rc
      reads this
    {
      Rc(roll, pitch, yaw, throttle)
    }

    method SetRC(roll: nat, pitch: nat, yaw: nat, throttle: nat)
      modifies this
      ensures Channels() == Rc(roll, pitch, yaw, throttle) && armed == old(armed) && calibrateFlag == old(calibrateFlag)
    {
      this.roll, this.pitch, this.yaw, this.throttle := roll, pitch, yaw, throttle;
    }

    method SetIdle()
      modifies this
      ensures Channels() == IDLE && armed == old(armed) && calibrateFlag == old(calibrateFlag)
    {
      SetRC(1500, 1500, 1500, 900);
    }

    method SetArm()
      modifies this
      ensures Channels() == IDLE && armed && calibrateFlag == old(calibrateFlag)
    {
      armed := true;
      SetRC(1500, 1500, 1500, 900);
    }

    method SetDisarm()
      modifies this
      ensures Channels() == IDLE && !armed && calibrateFlag == old(calibrateFlag)
    {
      armed := false;
      SetRC(1500, 1500, 1500, 900);
    }

    /** `sendRC`: the frame of the channels and the flag. */
    method SendRC() returns (frame: Frame)
      ensures frame == ToFrame(Channels(), armed)
      ensures frame.aux1 == 1800 <==> armed
    {
      return Frame(Rc(roll, pitch, yaw, throttle), if armed then 1800 else 1000);
    }
  }

  /** What the base has asked for: raw channels, and the targets of the two other flying modes. */
  datatype Input = Input(raw: Rc, velocityX: real, velocityY: real, positionX: real, positionY: real, positionZ: real)

  const RESET_INPUT := Input(Rc(1500, 1500, 1500, 1000), 0.0, 0.0, 0.0, 0.0, 0.35)

  /** The input of the base, and the velocity that the roll controller reads without rotation. */
  class Observations {
    var raw: Rc
    var ioVelocityX: real
    var ioVelocityY: real
    var ioPositionX: real
    var ioPositionY: real
    var ioPositionZ: real
    var velocityX: real

    function Given(): Input
      reads this
    {
      Input(raw, ioVelocityX, ioVelocityY, ioPositionX, ioPositionY, ioPositionZ)
    }

    constructor ()
      ensures Given() == RESET_INPUT
    {
      raw, velocityX := Rc(1500, 1500, 1500, 1000), 0.0;
      ioVelocityX, ioVelocityY, ioPositionX, ioPositionY, ioPositionZ := 0.0, 0.0, 0.0, 0.0, 0.35;
    }

    method ResetIO()
      modifies this
      ensures Given() == RESET_INPUT && velocityX == old(velocityX)
    {
      raw := Rc(1500, 1500, 1500, 1000);
      ioVelocityX, ioVelocityY, ioPositionX, ioPositionY, ioPositionZ := 0.0, 0.0, 0.0, 0.0, 0.35;
    }
  }

  /** Position and velocity of the drone in its own frame. */
  datatype Estimate = Estimate(positionX: real, positionY: real, positionZ: real, velocityX: real, velocityY: real, velocityZ: real)

  /** The gains from the configuration. */
  datatype Tuning = Tuning(p: real, i: real, d: real)

  datatype Config = Config(
    roll: Tuning, pitch: Tuning, throttle: Tuning, positionX: Tuning, positionY: Tuning, positionZ: Tuning,
    throttleK: real, positionXCenter: real, positionZCenter: real)

  function Clamped(t: Tuning, k: real, min: real, max: real): Gains {
    Gains(t.p, t.i, t.d, k, min, max, 400)
  }

  /** What an update may do to the flight state. */
  predicate Updated(s: State, t: State, raw: Rc, centre: real) {
    match s.mode
    case Disarming => t == Obey(s, Disarm)
    case Calibrating => t == s || t == Obey(s, Disarm)
    case TakeOff => t == Obey(s, StartVelocity)
    case RawControl => t == s.(rc := raw)
    case VelocityControl => t == s.(rc := t.rc) && Steered(t.rc, centre)
    case PositionControl => t == s.(rc := t.rc) && Steered(t.rc, centre)
    case _ => t == s
  }

  class FlightController {
    const obs: Observations
    const skyline: Skyline
    const rollPID: PID
    const pitchPID: PID
    const throttlePID: PID
    const posXPID: PID
    const posYPID: PID
    const posZPID: PID
    var mode: Mode
    var lastModeChange: int

    constructor (config: Config, obs: Observations, now: int)
      requires 0.0 <= config.throttleK < 65536.0
      ensures this.obs == obs && Valid() && Centre() == config.throttleK && Abstract() == State(Disarmed, false, IDLE)
      ensures rollPID.g == Clamped(config.roll, 1500.0, 1300.0, 1700.0)
      ensures pitchPID.g == Clamped(config.pitch, 1500.0, 1300.0, 1700.0)
      ensures throttlePID.g == Clamped(config.throttle, config.throttleK, 1100.0, 1900.0)
      ensures posXPID.g == Clamped(config.positionX, config.positionXCenter, -0.2, 0.2)
      ensures posYPID.g == Clamped(config.positionY, config.positionXCenter, -0.2, 0.2)
      ensures posZPID.g == Clamped(config.positionZ, config.positionZCenter, -0.1, 0.1)
      ensures fresh(skyline) && fresh(Blocks()) && fresh(this)
    {
      this.obs := obs;
      mode, lastModeChange := Disarmed, now;
      skyline := new Skyline();
      rollPID := new PID(Clamped(config.roll, 1500.0, 1300.0, 1700.0), now, 0);
      pitchPID := new PID(Clamped(config.pitch, 1500.0, 1300.0, 1700.0), now, 1);
      throttlePID := new PID(Clamped(config.throttle, config.throttleK, 1100.0, 1900.0), now, 2);
      posXPID := new PID(Clamped(config.positionX, config.positionXCenter, -0.2, 0.2), now, 3);
      posYPID := new PID(Clamped(config.positionY, config.positionXCenter, -0.2, 0.2), now, 4);
      posZPID := new PID(Clamped(config.positionZ, config.positionZCenter, -0.1, 0.1), now, 5);
    }

    ghost function Blocks(): set<PID> {
      {rollPID, pitchPID, throttlePID, posXPID, posYPID, posZPID}
    }

    /** The centre of the throttle, from the configuration. */
    ghost function Centre(): real {
      throttlePID.g.k
    }

    /** The blocks are six objects with the clamps of the constructor; the centre of the throttle can be cast to 16 bits. */
    ghost predicate Valid()
      reads rollPID, pitchPID, throttlePID, posXPID, posYPID, posZPID
    {
      && Block(rollPID, 0) && Block(pitchPID, 1) && Block(throttlePID, 2)
      && Block(posXPID, 3) && Block(posYPID, 4) && Block(posZPID, 5)
      && rollPID.g.min == pitchPID.g.min == 1300.0 && rollPID.g.max == pitchPID.g.max == 1700.0
      && rollPID.g.k == pitchPID.g.k == 1500.0
      && throttlePID.g.min == 1100.0 && throttlePID.g.max == 1900.0 && 0.0 <= Centre() < 65536.0
    }

    ghost predicate Block(b: PID, role: nat)
      reads b
    {
      b.role == role && b.Valid()
    }

    ghost function Abstract(): State
      reads this, skyline
    {
      State(mode, skyline.armed, skyline.Channels())
    }

    method SetMode(mode: Mode, now: int)
      modifies this
      ensures this.mode == mode && lastModeChange == now
    {
      lastModeChange := now;
      this.mode := mode;
    }

    method ObeyArm(now: int)
      modifies this, skyline
      ensures Abstract() == Obey(old(Abstract()), Arm)
      ensures lastModeChange == if mode == old(mode) then old(lastModeChange) else now
    {
      if mode == Disarmed {
        skyline.SetArm();
        SetMode(Armed, now);
        skyline.SetIdle();
      }
    }

    method ObeyDisarm(now: int)
      modifies this, skyline
      ensures Abstract() == Obey(old(Abstract()), Disarm)
      ensures lastModeChange == if mode == old(mode) then old(lastModeChange) else now
    {
      var mode := this.mode;
      skyline.SetDisarm();
      if mode != Disarmed && mode != Disarming {
        SetMode(Disarmed, now);
      }
    }

    method ObeyTakeOff(now: int)
      modifies this
      ensures Abstract() == Obey(old(Abstract()), StartTakeOff)
      ensures lastModeChange == if mode == old(mode) then old(lastModeChange) else now
    {
      if mode == Armed {
        SetMode(TakeOff, now);
      }
    }

    method ObeyRaw(now: int)
      modifies this
      ensures Abstract() == Obey(old(Abstract()), StartRaw)
      ensures lastModeChange == if mode == old(mode) then old(lastModeChange) else now
    {
      if mode == VelocityControl || mode == PositionControl || mode == TakeOff {
        SetMode(RawControl, now);
      }
    }

    method ObeyVelocity(now: int)
      requires Valid()
      modifies this, Blocks()
      ensures Valid() && Abstract() == Obey(old(Abstract()), StartVelocity)
      ensures lastModeChange == if mode == old(mode) then old(lastModeChange) else now
      ensures if old(MayFly(mode) && mode != VelocityControl) then AreReset(now) && unchanged(posZPID) else unchanged(Blocks())
    {
      if mode == RawControl || mode == PositionControl || mode == TakeOff {
        ResetPIDs(now);
        SetMode(VelocityControl, now);
      }
    }

    method ObeyPosition(now: int)
      requires Valid()
      modifies this, Blocks()
      ensures Valid() && Abstract() == Obey(old(Abstract()), StartPosition)
      ensures lastModeChange == if mode == old(mode) then old(lastModeChange) else now
      ensures if old(MayFly(mode) && mode != PositionControl) then AreReset(now) && unchanged(posZPID) else unchanged(Blocks())
    {
      if mode == RawControl || mode == VelocityControl || mode == TakeOff {
        ResetPIDs(now);
        SetMode(PositionControl, now);
      }
    }

    /** All blocks but the one for the height start afresh. */
    ghost predicate AreReset(now: int)
      reads rollPID, pitchPID, throttlePID, posXPID, posYPID, posZPID
    {
      && rollPID.errors == pitchPID.errors == throttlePID.errors == posXPID.errors == posYPID.errors == []
      && rollPID.lastTime == pitchPID.lastTime == throttlePID.lastTime == posXPID.lastTime == posYPID.lastTime == now
    }

    method ResetPIDs(now: int)
      requires Valid()
      modifies rollPID, pitchPID, throttlePID, posXPID, posYPID
      ensures Valid() && AreReset(now) && unchanged(posZPID)
    {
      rollPID.Reset(now);
      pitchPID.Reset(now);
      throttlePID.Reset(now);
      posXPID.Reset(now);
      posYPID.Reset(now);
    }

    /** The channels for the outputs of the controllers, which are cast to 16 bits. */
    ghost function Command(): Rc
      requires Valid()
      reads rollPID, pitchPID, throttlePID, posXPID, posYPID, posZPID
    {
      OutputsSteer();
      Rc(rollPID.lastOut.Floor, pitchPID.lastOut.Floor, 1500, throttlePID.lastOut.Floor)
    }

    lemma OutputsSteer()
      requires Valid()
      ensures rollPID.lastOut.Floor >= 0 && pitchPID.lastOut.Floor >= 0 && throttlePID.lastOut.Floor >= 0
      ensures Steered(Rc(rollPID.lastOut.Floor, pitchPID.lastOut.Floor, 1500, throttlePID.lastOut.Floor), Centre())
    {
    }

    /** The command is within the clamps, except that until the first error is recorded the throttle is the unclamped centre. */
    lemma CommandInClamps()
      requires Valid()
      ensures InClamps(Command()) <==> throttlePID.errors != [] || 1100 <= Centre().Floor <= 1900
    {
    }

    /** The channels are the outputs of the controllers, without their fractions. */
    predicate Commanded()
      reads skyline, rollPID, pitchPID, throttlePID
    {
      && skyline.roll == rollPID.lastOut.Floor && skyline.pitch == pitchPID.lastOut.Floor
      && skyline.yaw == 1500 && skyline.throttle == throttlePID.lastOut.Floor
    }

    /** The errors given to the attitude and throttle controllers, and the channels commanded. */
    twostate predicate Steers(rollErr: real, pitchErr: real, throttleErr: real, clock: nat -> int)
      reads skyline, rollPID, pitchPID, throttlePID
    {
      && rollPID.errors == Recorded(rollPID.g, old(rollPID.errors), old(rollPID.lastTime), rollErr, clock(0))
      && pitchPID.errors == Recorded(pitchPID.g, old(pitchPID.errors), old(pitchPID.lastTime), pitchErr, clock(1))
      && throttlePID.errors == Recorded(throttlePID.g, old(throttlePID.errors), old(throttlePID.lastTime), throttleErr, clock(2))
      && Commanded()
    }

    /** The velocity mode: the height is held by a position block in front of the throttle. */
    twostate predicate SteersVelocity(e: Estimate, clock: nat -> int)
      reads obs, skyline, Blocks()
    {
      && posXPID.errors == old(posXPID.errors) && posYPID.errors == old(posYPID.errors)
      && posZPID.errors == Recorded(posZPID.g, old(posZPID.errors), old(posZPID.lastTime), e.positionZ, clock(3))
      && Steers(obs.velocityX - obs.ioVelocityX, e.velocityY - obs.ioVelocityY, e.velocityZ - posZPID.lastOut, clock)
    }

    /** The position mode: three position blocks set the target velocities. */
    twostate predicate SteersPosition(e: Estimate, clock: nat -> int)
      reads skyline, Blocks()
    {
      && posXPID.errors == Recorded(posXPID.g, old(posXPID.errors), old(posXPID.lastTime), e.positionX, clock(5))
      && posYPID.errors == Recorded(posYPID.g, old(posYPID.errors), old(posYPID.lastTime), e.positionY, clock(4))
      && posZPID.errors == Recorded(posZPID.g, old(posZPID.errors), old(posZPID.lastTime), e.positionZ, clock(3))
      && Steers(e.velocityX - posXPID.lastOut, e.velocityY - posYPID.lastOut, e.velocityZ - posZPID.lastOut, clock)
    }

    /** Steps the attitude and throttle controllers towards target velocities and sends their outputs to the channels. */
    method Steer(rollErr: real, pitchErr: real, throttleErr: real, clock: nat -> int)
      requires Valid()
      modifies skyline, rollPID, pitchPID, throttlePID
      ensures Valid() && skyline.Channels() == Command() && skyline.armed == old(skyline.armed)
      ensures Steers(rollErr, pitchErr, throttleErr, clock)
    {
      hide Output, Recorded;
      var roll := rollPID.Step(rollErr, clock(0));
      var pitch := pitchPID.Step(pitchErr, clock(1));
      var throttle := throttlePID.Step(throttleErr, clock(2));
      OutputsSteer();
      skyline.SetRC(roll.Floor, pitch.Floor, 1500, throttle.Floor);
    }

    method SteerVelocity(e: Estimate, clock: nat -> int)
      requires Valid()
      modifies skyline, posZPID, rollPID, pitchPID, throttlePID
      ensures Valid() && skyline.Channels() == Command() && skyline.armed == old(skyline.armed)
      ensures SteersVelocity(e, clock)
    {
      hide Output, Recorded, FlightController.Command, PID.Valid;
      var targetZ := posZPID.Step(e.positionZ, clock(3));
      Steer(obs.velocityX - obs.ioVelocityX, e.velocityY - obs.ioVelocityY, e.velocityZ - targetZ, clock);
    }

    method SteerPosition(e: Estimate, clock: nat -> int)
      requires Valid()
      modifies skyline, Blocks()
      ensures Valid() && skyline.Channels() == Command() && skyline.armed == old(skyline.armed)
      ensures SteersPosition(e, clock)
    {
      hide Output, Recorded, FlightController.Command, PID.Valid;
      var targetX := posXPID.Step(e.positionX, clock(5));
      var targetY := posYPID.Step(e.positionY, clock(4));
      var targetZ := posZPID.Step(e.positionZ, clock(3));
      Steer(e.velocityX - targetX, e.velocityY - targetY, e.velocityZ - targetZ, clock);
    }

    /** `updateController`: false is the exception for a bad mode. */
    method UpdateController(e: Estimate, now: int, clock: nat -> int) returns (ok: bool)
      requires Valid()
      modifies this, skyline, Blocks()
      ensures Valid() && Updated(old(Abstract()), Abstract(), obs.raw, Centre())
      ensures old(mode) in {VelocityControl, PositionControl} ==> skyline.Channels() == Command()
      ensures old(mode) == VelocityControl ==> SteersVelocity(e, clock)
      ensures old(mode) == PositionControl ==> SteersPosition(e, clock)
      ensures old(mode) == TakeOff ==> AreReset(now) && unchanged(posZPID)
      ensures old(mode) !in {TakeOff, VelocityControl, PositionControl} ==> unchanged(Blocks())
      ensures lastModeChange == if mode == old(mode) then old(lastModeChange) else now
      ensures ok <==> old(mode) != Arming
      ensures old(mode) == Calibrating ==>
                (mode == Disarmed <==> !old(skyline.calibrateFlag) || now - old(lastModeChange) > 10_000_000)
    {
      hide FlightController.Valid, FlightController.AreReset, FlightController.SteersVelocity, FlightController.SteersPosition, Steered;
      ok := true;
      match mode {
        case Disarmed =>
        case Disarming =>
          skyline.SetDisarm();
          ObeyDisarm(now);
        case Calibrating =>
          if !skyline.calibrateFlag || now - lastModeChange > 10_000_000 {
            ObeyDisarm(now);
          }
        case TakeOff =>
          ObeyVelocity(now);
        case RawControl =>
          skyline.SetRC(obs.raw.roll, obs.raw.pitch, obs.raw.yaw, obs.raw.throttle);
        case VelocityControl =>
          SteerVelocity(e, clock);
          OutputsSteer();
        case PositionControl =>
          SteerPosition(e, clock);
          OutputsSteer();
        case Armed =>
        case TouchDown =>
        case Hover =>
        case Arming =>
          ok := false;
      }
    }
  }

  lemma UpdateSafely(s: State, t: State, raw: Rc, centre: real)
    requires Safe(s) && Updated(s, t, raw, centre) && InRawRange(raw) && 1100 <= centre.Floor <= 1900
    ensures Safe(t) && (t.armed <==> s.armed)
  {
  }

  /** A drone with the throttle's centre at 1000 that has just been told to fly. */
  method StartFlying() returns (controller: FlightController)
    ensures fresh(controller) && fresh(controller.skyline) && fresh(controller.Blocks())
    ensures controller.Valid() && controller.Abstract().mode == VelocityControl && controller.AreReset(0)
    ensures controller.Centre() == 1000.0 && controller.throttlePID.g.delay == 400
  {
    hide FlightController.Valid, FlightController.AreReset;
    var off := Tuning(0.0, 0.0, 0.0);
    var obs := new Observations();
    controller := new FlightController(Config(off, off, off, off, off, off, 1000.0, 0.0, 0.0), obs, 0);
    controller.ObeyArm(0);
    controller.ObeyTakeOff(0);
    controller.ObeyVelocity(0);
  }

  /** An update within the delay then commands a throttle below its clamp. */
  method OpenCentre() returns (controller: FlightController)
    ensures controller.Valid() && controller.Abstract().mode == VelocityControl
    ensures controller.skyline.Channels() == controller.Command() && !InClamps(controller.Command())
  {
    hide FlightController.Valid, FlightController.Command, FlightController.Commanded, InClamps;
    controller := StartFlying();
    var ok := controller.UpdateController(Estimate(0.0, 0.0, 0.0, 0.0, 0.0, 0.0), 0, _ => 0);
    controller.CommandInClamps();
  }
}
