/**
 The two loops that drive the flight machine: `do_recv` dispatches the messages of the base,
 `do_update` sends the channels and steps the controllers.
 */
module Drone {
  import opened Flight
  import opened Options

  datatype ModeRequest = NoMode | ArmMode | DisarmMode | TakeOffMode | RawMode | VelocityMode | PositionMode | OtherMode

  datatype Command = NoCommand | ResetPosition | Disconnect | OtherCommand

  datatype Vector = Vector(x: real, y: real, z: real)

  /** A message of the base. */
  datatype Update = Update(mode: ModeRequest, command: Command, raw: Option<Rc>, velocity: Option<Vector>, position: Option<Vector>)

  /** The raw channels are 32 bits wide in the message and 16 bits in the drone. */
  function Narrow(rc: Rc): Rc {
    Rc(rc.roll % 0x1_0000, rc.pitch % 0x1_0000, rc.yaw % 0x1_0000, rc.throttle % 0x1_0000)
  }

  lemma NarrowProper(rc: Rc)
    requires InRawRange(rc)
    ensures Narrow(rc) == rc
  {
  }

  function ObeyMode(s: State, mode: ModeRequest): State {
    match mode
    case ArmMode => Obey(s, Arm)
    case DisarmMode => Obey(s, Disarm)
    case TakeOffMode => Obey(s, StartTakeOff)
    case RawMode => Obey(s, StartRaw)
    case VelocityMode => Obey(s, StartVelocity)
    case PositionMode => Obey(s, StartPosition)
    case _ => s
  }

  /** The mode is switched before a command is executed, so a message that arms and disconnects disarms. */
  function ObeyUpdate(s: State, u: Update): State {
    var t := ObeyMode(s, u.mode);
    if u.command == Disconnect then Obey(t, Disarm) else t
  }

  lemma ObeyModeSafely(s: State, mode: ModeRequest)
    requires Safe(s)
    ensures Safe(ObeyMode(s, mode))
  {
  }

  /** What one of the calls of the two loops may be. */
  datatype Call =
    | Received(update: Update, at: int)
    | Lost(at: int)
    | SendChannels
    | Step(estimate: Estimate, at: int, clock: nat -> int)

  /** The base keeps to the documented range of the raw channels. */
  predicate Proper(call: Call) {
    call.Received? && call.update.raw.Some? ==> InRawRange(call.update.raw.value)
  }

  /** Whether a message arms or disarms the drone, if it does either. */
  function Arming(u: Update): Option<bool> {
    if u.command == Disconnect || u.mode == DisarmMode then Some(false)
    else if u.mode == ArmMode then Some(true)
    else None
  }

  lemma ObeyUpdateArms(s: State, u: Update)
    requires Safe(s)
    ensures Safe(ObeyUpdate(s, u)) && ObeyUpdate(s, u).armed == if Arming(u).Some? then Arming(u).value else s.armed
  {
  }

  predicate ArmedAfter(armed: bool, call: Call) {
    match call
    case Received(u, _) => if Arming(u).Some? then Arming(u).value else armed
    case Lost(_) => false
    case _ => armed
  }

  /**
   The drone is armed just if the last message that concerned arming asked for it and no read
   has failed since.  An orderly close of the connection is not noticed: `read` returns zero,
   which the receiver reports as no message for ever.
   */
  predicate ArmedBy(calls: seq<Call>) {
    if calls == [] then false else ArmedAfter(ArmedBy(calls[..|calls|-1]), calls[|calls|-1])
  }

  /** The flying mode that a message asks for. */
  function FlyingMode(u: Update): Option<Mode> {
    match u.mode
    case RawMode => Some(RawControl)
    case VelocityMode => Some(VelocityControl)
    case PositionMode => Some(PositionControl)
    case _ => None
  }

  /** The mode after a call: every flight begins with arming, a take-off order and an update after it. */
  function ModeAfter(mode: Mode, call: Call): Mode {
    match call
    case Received(u, _) =>
      if Arming(u) == Some(false) then Disarmed
      else if Arming(u) == Some(true) && mode == Disarmed then Armed
      else if u.mode == TakeOffMode && mode == Armed then TakeOff
      else if FlyingMode(u).Some? && mode !in {Disarmed, Armed} then FlyingMode(u).value
      else mode
    case Lost(_) => Disarmed
    case SendChannels => mode
    case Step(_, _, _) => if mode == TakeOff then VelocityControl else mode
  }

  function ModeBy(calls: seq<Call>): (m: Mode)
    ensures Reachable(m)
  {
    if calls == [] then Disarmed else ModeAfter(ModeBy(calls[..|calls|-1]), calls[|calls|-1])
  }

  lemma ObeyUpdateMode(s: State, u: Update, at: int)
    requires Safe(s)
    ensures ObeyUpdate(s, u).mode == ModeAfter(s.mode, Received(u, at))
    ensures u.command == Disconnect ==> ObeyUpdate(s, u) == State(Disarmed, false, IDLE)
  {
  }

  lemma StepMode(s: State, t: State, raw: Rc, centre: real, call: Call)
    requires Safe(s) && Updated(s, t, raw, centre) && call.Step?
    ensures t.mode == ModeAfter(s.mode, call)
    ensures s.mode == RawControl ==> t.rc == raw
    ensures s.mode in {Disarmed, Armed} ==> t == s
  {
  }

  /** The drone is armed exactly in the modes other than Disarmed. */
  lemma {:induction false} ArmedByMode(calls: seq<Call>)
    ensures ArmedBy(calls) <==> ModeBy(calls) != Disarmed
  {
    if calls != [] {
      ArmedByMode(calls[..|calls|-1]);
    }
  }

  /** Where a message carries a value it is taken, else a reset value, else what was there before. */
  function Taken<T>(carried: Option<T>, reset: bool, resetValue: T, before: T): T {
    match carried
    case Some(v) => v
    case None => if reset then resetValue else before
  }

  function CarriedRaw(u: Update): Option<Rc> {
    u.raw
  }

  function CarriedVelocityX(u: Update): Option<real> {
    if u.velocity.Some? then Some(u.velocity.value.x) else None
  }

  function CarriedVelocityY(u: Update): Option<real> {
    if u.velocity.Some? then Some(u.velocity.value.y) else None
  }

  function CarriedPositionX(u: Update): Option<real> {
    if u.position.Some? then Some(u.position.value.x) else None
  }

  function CarriedPositionY(u: Update): Option<real> {
    if u.position.Some? then Some(u.position.value.y) else None
  }

  /** The height comes with a position or a velocity. */
  function CarriedHeight(u: Update): Option<real> {
    if u.position.Some? then Some(u.position.value.z) else if u.velocity.Some? then Some(u.velocity.value.z) else None
  }

  /** What a message that does not disconnect makes of the inputs. */
  predicate Heeds(before: Input, u: Update, after: Input) {
    var reset := u.mode == DisarmMode;
    && after.raw == Taken(u.raw, reset, Rc(1500, 1500, 1500, 1000), before.raw)
    && after.velocityX == Taken(CarriedVelocityX(u), reset, 0.0, before.velocityX)
    && after.velocityY == Taken(CarriedVelocityY(u), reset, 0.0, before.velocityY)
    && after.positionX == Taken(CarriedPositionX(u), reset, 0.0, before.positionX)
    && after.positionY == Taken(CarriedPositionY(u), reset, 0.0, before.positionY)
    && after.positionZ == Taken(CarriedHeight(u), reset, 0.35, before.positionZ)
  }

  /** What a call stores in an input, if anything. */
  function Stored<T>(call: Call, carries: Update -> Option<T>, resetValue: T): Option<T> {
    match call
    case Received(u, _) =>
      if u.command != Disconnect && carries(u).Some? then carries(u)
      else if u.mode == DisarmMode then Some(resetValue)
      else None
    case _ => None
  }

  /** The value of an input after some calls. */
  function Latest<T>(calls: seq<Call>, carries: Update -> Option<T>, resetValue: T, start: T): T {
    if calls == [] then start
    else
      match Stored(calls[|calls|-1], carries, resetValue)
      case Some(v) => v
      case None => Latest(calls[..|calls|-1], carries, resetValue, start)
  }

  /** It is what the latest call that stores one has stored. */
  lemma {:induction false} LatestIs<T>(calls: seq<Call>, carries: Update -> Option<T>, resetValue: T, start: T, n: nat)
    requires n < |calls| && Stored(calls[n], carries, resetValue).Some?
    requires forall j :: n < j < |calls| ==> Stored(calls[j], carries, resetValue).None?
    ensures Latest(calls, carries, resetValue, start) == Stored(calls[n], carries, resetValue).value
  {
    if n < |calls| - 1 {
      LatestIs(calls[..|calls|-1], carries, resetValue, start, n);
    }
  }

  /** And where no call has stored one, what it was at the start. */
  lemma {:induction false} LatestNone<T>(calls: seq<Call>, carries: Update -> Option<T>, resetValue: T, start: T)
    requires forall j :: 0 <= j < |calls| ==> Stored(calls[j], carries, resetValue).None?
    ensures Latest(calls, carries, resetValue, start) == start
  {
    if calls != [] {
      LatestNone(calls[..|calls|-1], carries, resetValue, start);
    }
  }

  /** All inputs after some calls. */
  function LatestInput(calls: seq<Call>, start: Input): Input {
    Input(
      Latest(calls, CarriedRaw, RESET_INPUT.raw, start.raw),
      Latest(calls, CarriedVelocityX, RESET_INPUT.velocityX, start.velocityX),
      Latest(calls, CarriedVelocityY, RESET_INPUT.velocityY, start.velocityY),
      Latest(calls, CarriedPositionX, RESET_INPUT.positionX, start.positionX),
      Latest(calls, CarriedPositionY, RESET_INPUT.positionY, start.positionY),
      Latest(calls, CarriedHeight, RESET_INPUT.positionZ, start.positionZ))
  }

  lemma NoInput(start: Input)
    ensures LatestInput([], start) == start
  {
  }

  /** What a call makes of the inputs. */
  predicate InputAfter(before: Input, call: Call, after: Input) {
    match call
    case Received(u, _) =>
      if u.command == Disconnect then after == if u.mode == DisarmMode then RESET_INPUT else before else Heeds(before, u, after)
    case _ => after == before
  }

  lemma LatestInputNext(calls: seq<Call>, start: Input, after: Input)
    requires calls != [] && InputAfter(LatestInput(calls[..|calls|-1], start), calls[|calls|-1], after)
    ensures after == LatestInput(calls, start)
  {
  }

  /** The numbers of the calls that send the channels, in order. */
  function Sends(calls: seq<Call>): (r: seq<nat>)
    ensures forall i: nat :: i in r <==> i < |calls| && calls[i].SendChannels?
    ensures forall k :: 0 <= k < |r| ==> r[k] < |calls|
    ensures forall j, k :: 0 <= j < k < |r| ==> r[j] < r[k]
  {
    if calls == [] then []
    else
      var n := |calls| - 1;
      var before := Sends(calls[..n]);
      if calls[n].SendChannels? then before + [n] else before
  }

  /** A frame sent after some calls arms the board just as they say, and is idle, or the drone flies and it is in range. */
  predicate Follows(frame: Frame, calls: seq<Call>) {
    && frame == ToFrame(frame.rc, ArmedBy(calls))
    && (frame.rc == IDLE || ModeBy(calls) in {RawControl, VelocityControl, PositionControl})
    && (frame.rc == IDLE || InClamps(frame.rc) || InRawRange(frame.rc))
  }

  /** There is a frame for every call that sends the channels, and it follows the calls before that one. */
  ghost predicate FramesFollow(frames: seq<Frame>, calls: seq<Call>) {
    |frames| == |Sends(calls)| && forall k :: 0 <= k < |frames| ==> Follows(frames[k], calls[..Sends(calls)[k]])
  }

  lemma NoFrames()
    ensures FramesFollow([], [])
  {
  }

  lemma SafelySent(s: State, calls: seq<Call>)
    requires Safe(s) && s.mode == ModeBy(calls) && (s.armed <==> ArmedBy(calls))
    ensures Follows(ToFrame(s.rc, ArmedBy(calls)), calls)
  {
  }

  /** All calls that send but the last one are those of the calls before it. */
  lemma SendsBefore(calls: seq<Call>, k: nat)
    requires calls != [] && k < |Sends(calls)|
    ensures var before := calls[..|calls|-1];
            if k < |Sends(before)| then calls[..Sends(calls)[k]] == before[..Sends(before)[k]]
            else k == |Sends(before)| && calls[..Sends(calls)[k]] == before
  {
  }

  lemma FollowStep(frames: seq<Frame>, calls: seq<Call>, frame: Frame)
    requires calls != [] && FramesFollow(frames, calls[..|calls|-1]) && Follows(frame, calls[..|calls|-1])
    ensures FramesFollow(frames + if calls[|calls|-1].SendChannels? then [frame] else [], calls)
  {
    hide Follows;
    var n := |calls| - 1;
    var all := frames + if calls[n].SendChannels? then [frame] else [];
    forall k | 0 <= k < |all| ensures Follows(all[k], calls[..Sends(calls)[k]]) {
      SendsBefore(calls, k);
    }
  }

  class Loops {
    const obs: Observations
    const controller: FlightController

    constructor (config: Config, now: int)
      requires 1100 <= config.throttleK.Floor <= 1900
      ensures Valid() && controller.Abstract() == State(Disarmed, false, IDLE) && obs.Given() == RESET_INPUT
      ensures fresh(obs) && fresh(controller) && fresh(controller.skyline) && fresh(controller.Blocks())
    {
      var o := new Observations();
      obs := o;
      controller := new FlightController(config, o, now);
    }

    /** The invariant of every sequence of calls, for a configuration whose throttle centre lies within its clamps. */
    ghost predicate Valid()
      reads obs, controller, controller.skyline, controller.Blocks()
    {
      && controller.Valid() && 1100 <= controller.Centre().Floor <= 1900 && controller.obs == obs && InRawRange(obs.raw) && Safe(controller.Abstract())
    }

    /** One round of `do_recv`; true when the loop ends. */
    method Receive(u: Update, now: int) returns (done: bool)
      requires Valid() && (u.raw.Some? ==> InRawRange(u.raw.value))
      modifies obs, controller, controller.skyline, controller.Blocks()
      ensures Valid() && done == (u.command == Disconnect)
      ensures controller.Abstract() == ObeyUpdate(old(controller.Abstract()), u)
      ensures done ==> obs.Given() == if u.mode == DisarmMode then RESET_INPUT else old(obs.Given())
      ensures !done ==> Heeds(old(obs.Given()), u, obs.Given())
    {
      hide FlightController.Valid, Obey;
      Dispatch(u.mode, now);
      match u.command {
        case NoCommand =>
        case ResetPosition =>
        case Disconnect =>
          ObeySafely(controller.Abstract(), Disarm);
          controller.ObeyDisarm(now);
          return true;
        case OtherCommand =>
      }
      Store(u);
      return false;
    }

    /** The switch over the requested mode. */
    method Dispatch(mode: ModeRequest, now: int)
      requires Valid()
      modifies obs, controller, controller.skyline, controller.Blocks()
      ensures Valid() && controller.Abstract() == ObeyMode(old(controller.Abstract()), mode)
      ensures obs.Given() == if mode == DisarmMode then RESET_INPUT else old(obs.Given())
    {
      hide FlightController.Valid, Obey;
      ObeyModeSafely(controller.Abstract(), mode);
      match mode {
        case NoMode =>
        case ArmMode => controller.ObeyArm(now);
        case DisarmMode =>
          controller.ObeyDisarm(now);
          obs.ResetIO();
        case TakeOffMode => controller.ObeyTakeOff(now);
        case RawMode => controller.ObeyRaw(now);
        case VelocityMode => controller.ObeyVelocity(now);
        case PositionMode => controller.ObeyPosition(now);
        case OtherMode =>
      }
    }

    /** Stores what the message carries for the controllers.  The height comes with either of the last two. */
    method Store(u: Update)
      requires Valid() && (u.raw.Some? ==> InRawRange(u.raw.value))
      modifies obs
      ensures Valid() && Heeds(old(obs.Given()), u.(mode := NoMode), obs.Given())
      ensures obs.velocityX == old(obs.velocityX)
    {
      hide FlightController.Valid, Obey, Safe, InRawRange, Narrow;
      if u.raw.Some? {
        NarrowProper(u.raw.value);
        obs.raw := Narrow(u.raw.value);
      }
      if u.velocity.Some? {
        obs.ioVelocityX, obs.ioVelocityY, obs.ioPositionZ := u.velocity.value.x, u.velocity.value.y, u.velocity.value.z;
      }
      if u.position.Some? {
        obs.ioPositionX, obs.ioPositionY, obs.ioPositionZ := u.position.value.x, u.position.value.y, u.position.value.z;
      }
    }

    /** One whole call; `sent` is the frame it sends, if it does. */
    method Perform(call: Call) returns (sent: seq<Frame>)
      requires Valid() && Proper(call)
      modifies obs, controller, controller.skyline, controller.Blocks()
      ensures Valid() && controller.skyline.armed == ArmedAfter(old(controller.skyline.armed), call)
      ensures controller.mode == ModeAfter(old(controller.mode), call) && InputAfter(old(obs.Given()), call, obs.Given())
      ensures call.Received? ==> controller.Abstract() == ObeyUpdate(old(controller.Abstract()), call.update)
      ensures call.Lost? ==> controller.Abstract() == State(Disarmed, false, IDLE)
      ensures call.SendChannels? || (call.Step? && old(controller.mode) in {Disarmed, Armed}) ==> controller.Abstract() == old(controller.Abstract())
      ensures call.Step? && old(controller.mode) == RawControl ==> controller.skyline.Channels() == obs.raw
      ensures call.Step? && old(controller.mode) == VelocityControl ==> controller.SteersVelocity(call.estimate, call.clock)
      ensures call.Step? && old(controller.mode) == PositionControl ==> controller.SteersPosition(call.estimate, call.clock)
      ensures sent == if call.SendChannels? then [ToFrame(old(controller.skyline.Channels()), old(controller.skyline.armed))] else []
    {
      hide FlightController.Valid, FlightController.SteersVelocity, FlightController.SteersPosition, Obey, Updated, Heeds, InRawRange, InClamps;
      sent := [];
      match call {
        case Received(u, at) =>
          ObeyUpdateArms(controller.Abstract(), u);
          ObeyUpdateMode(controller.Abstract(), u, at);
          var done := Receive(u, at);
        case Lost(at) =>
          ObeyUpdateArms(controller.Abstract(), Update(NoMode, Disconnect, None, None, None));
          ObeyUpdateMode(controller.Abstract(), Update(NoMode, Disconnect, None, None, None), at);
          controller.ObeyDisarm(at);
        case SendChannels =>
          var frame := controller.skyline.SendRC();
          sent := [frame];
        case Step(e, at, clock) =>
          ghost var before := controller.Abstract();
          var ok := controller.UpdateController(e, at, clock);
          UpdateSafely(before, controller.Abstract(), obs.raw, controller.Centre());
          StepMode(before, controller.Abstract(), obs.raw, controller.Centre(), call);
          assert ok;
      }
    }

    /**
     Any sequence of whole calls.  The invariant holds after each; the mode, the flag and the
     inputs are those of the messages; every frame sent follows the last message about arming;
     and the channels sent are idle, or the drone flies and they are in range.
     */
    method Run(calls: seq<Call>) returns (frames: seq<Frame>)
      requires Valid() && !controller.skyline.armed && forall c :: c in calls ==> Proper(c)
      modifies obs, controller, controller.skyline, controller.Blocks()
      ensures Valid() && controller.mode == ModeBy(calls) && (controller.skyline.armed <==> ArmedBy(calls))
      ensures obs.Given() == LatestInput(calls, old(obs.Given()))
      ensures FramesFollow(frames, calls)
    {
      hide FlightController.Valid, Follows, FramesFollow, LatestInput, InputAfter;
      frames := [];
      NoFrames();
      NoInput(obs.Given());
      for i := 0 to |calls|
        invariant Valid() && controller.mode == ModeBy(calls[..i]) && (controller.skyline.armed <==> ArmedBy(calls[..i]))
        invariant obs.Given() == LatestInput(calls[..i], old(obs.Given())) && FramesFollow(frames, calls[..i])
      {
        assert calls[..i+1][..i] == calls[..i] && calls[i] in calls;
        ghost var rc := controller.skyline.Channels();
        SafelySent(controller.Abstract(), calls[..i]);
        var sent := Perform(calls[i]);
        LatestInputNext(calls[..i+1], old(obs.Given()), obs.Given());
        FollowStep(frames, calls[..i+1], ToFrame(rc, ArmedBy(calls[..i])));
        frames := frames + sent;
      }
      assert calls[..|calls|] == calls;
    }
  }
}
