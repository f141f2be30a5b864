/**
 The flight machine with single atomic accesses as steps: the thread of `do_recv` obeys
 orders while the thread of `do_update` sends the channels and steps the controllers.
 */
module FlightThreads {
  import opened Flight
  import opened Options

  function Channel(rc: Rc, k: nat): nat {
    match k case 0 => rc.roll case 1 => rc.pitch case 2 => rc.yaw case _ => rc.throttle
  }

  function WithChannel(rc: Rc, k: nat, value: nat): Rc {
    match k
    case 0 => rc.(roll := value)
    case 1 => rc.(pitch := value)
    case 2 => rc.(yaw := value)
    case _ => rc.(throttle := value)
  }

  /** The next access of the thread that obeys orders; `seen` is the mode that `disarm` has read. */
  datatype Control =
    | Waiting
    | ArmFlag | ArmChannel(k: nat) | ArmMode | ArmIdle(k: nat)
    | DisarmFlag(seen: Mode) | DisarmChannel(seen: Mode, k: nat) | DisarmMode
    | StoreMode(mode: Mode)

  /**
   The next access of the updating thread.  `Elsewhere` is a branch for a mode other than the
   six, among them the exception for a bad mode.
   */
  datatype Updating =
    | Ready
    | Sending(k: nat, rc: Rc) | SendingFlag(rc: Rc)
    | ReadAgain | StoreVelocity
    | SetChannel(k: nat, target: Rc)
    | Elsewhere

  /**
   The shared variables, where the threads are, and the frames sent.  `stray` remembers that
   the updating thread has stored its mode while the flag was clear, and that no `disarm` has
   stored Disarmed since.
   */
  datatype World = World(mode: Mode, armed: bool, rc: Rc, control: Control, updating: Updating, frames: seq<Frame>, stray: bool)

  const START := World(Disarmed, false, IDLE, Waiting, Ready, [], false)

  datatype Access =
    | Begin(order: Order)   // the first access of an order, which reads the mode
    | Proceed               // the next access of that order
    | BeginSend             // the first access of `sendRC`
    | Update(target: Rc)    // the next access of the updating thread; from Ready, `updateController` reads the mode

  /** The first access of an order decides what it will do. */
  function Decide(mode: Mode, order: Order): Control {
    match order
    case Arm => if mode == Disarmed then ArmFlag else Waiting
    case Disarm => DisarmFlag(mode)
    case StartTakeOff => if mode == Armed then StoreMode(TakeOff) else Waiting
    case StartRaw => if mode in {VelocityControl, PositionControl, TakeOff} then StoreMode(RawControl) else Waiting
    case StartVelocity => if mode in {RawControl, PositionControl, TakeOff} then StoreMode(VelocityControl) else Waiting
    case StartPosition => if mode in {RawControl, VelocityControl, TakeOff} then StoreMode(PositionControl) else Waiting
  }

  /** The next access of an order. */
  function NextControl(w: World): Option<World> {
    match w.control
    case Waiting => None
    case ArmFlag => Some(w.(armed := true, control := ArmChannel(0)))
    case ArmChannel(k) => Some(w.(rc := WithChannel(w.rc, k, Channel(IDLE, k)), control := if k < 3 then ArmChannel(k + 1) else ArmMode))
    case ArmMode => Some(w.(mode := Armed, control := ArmIdle(0)))
    case ArmIdle(k) => Some(w.(rc := WithChannel(w.rc, k, Channel(IDLE, k)), control := if k < 3 then ArmIdle(k + 1) else Waiting))
    case DisarmFlag(seen) => Some(w.(armed := false, control := DisarmChannel(seen, 0)))
    case DisarmChannel(seen, k) =>
      var next := if k < 3 then DisarmChannel(seen, k + 1) else if seen in {Disarmed, Disarming} then Waiting else DisarmMode;
      Some(w.(rc := WithChannel(w.rc, k, Channel(IDLE, k)), control := next))
    case DisarmMode => Some(w.(mode := Disarmed, control := Waiting, stray := false))
    case StoreMode(mode) => Some(w.(mode := mode, control := Waiting))
  }

  /** The next access of the updating thread; `target` are the channels that a mode calls for. */
  function NextUpdate(w: World, target: Rc): Option<World> {
    match w.updating
    case Ready =>
      (match w.mode
       case Disarmed => Some(w)
       case Armed => Some(w)
       case TakeOff => Some(w.(updating := ReadAgain))
       case RawControl => if InRawRange(target) then Some(w.(updating := SetChannel(0, target))) else None
       case VelocityControl => if InClamps(target) then Some(w.(updating := SetChannel(0, target))) else None
       case PositionControl => if InClamps(target) then Some(w.(updating := SetChannel(0, target))) else None
       case _ => Some(w.(updating := Elsewhere)))
    case Sending(k, rc) =>
      var got := WithChannel(rc, k, Channel(w.rc, k));
      Some(w.(updating := if k < 3 then Sending(k + 1, got) else SendingFlag(got)))
    case SendingFlag(rc) =>
      Some(w.(frames := w.frames + [ToFrame(rc, w.armed)], updating := Ready))
    case ReadAgain =>
      Some(w.(updating := if w.mode in {RawControl, PositionControl, TakeOff} then StoreVelocity else Ready))
    case StoreVelocity => Some(w.(mode := VelocityControl, updating := Ready, stray := w.stray || !w.armed))
    case SetChannel(k, rc) =>
      Some(w.(rc := WithChannel(w.rc, k, Channel(rc, k)), updating := if k < 3 then SetChannel(k + 1, rc) else Ready))
    case Elsewhere => None
  }

  function Next(w: World, a: Access): Option<World> {
    match a
    case Begin(order) => if w.control == Waiting then Some(w.(control := Decide(w.mode, order))) else None
    case Proceed => NextControl(w)
    case BeginSend => if w.updating == Ready then Some(w.(updating := Sending(0, IDLE))) else None
    case Update(target) => NextUpdate(w, target)
  }

  /** Every channel by itself is idle or in range, though a frame may mix those of different orders. */
  predicate ChannelsInRange(rc: Rc) {
    1000 <= rc.roll <= 2000 && 1000 <= rc.pitch <= 2000 && 1000 <= rc.yaw <= 2000 && (rc.throttle == 900 || 1000 <= rc.throttle <= 2000)
  }

  /** Between the store that clears the flag and the end of `disarm`. */
  predicate Disarms(c: Control) {
    c.DisarmMode? || (c.DisarmChannel? && c.seen != Disarmed)
  }

  /** Between the store that sets the flag and the store of the mode Armed. */
  predicate Arms(c: Control) {
    c.ArmChannel? || c.ArmMode?
  }

  predicate ControlInv(w: World) {
    match w.control
    case Waiting => true
    case ArmFlag => !w.armed
    case ArmChannel(k) => w.armed && k <= 3
    case ArmMode => w.armed
    case ArmIdle(k) => w.armed && k <= 3
    case DisarmFlag(seen) => Reachable(seen) && (seen == Disarmed ==> !w.armed && (w.mode == Disarmed || w.stray))
    case DisarmChannel(seen, k) => Reachable(seen) && !w.armed && k <= 3
    case DisarmMode => !w.armed
    case StoreMode(mode) => MayFly(mode) && (mode == TakeOff || MayFly(w.mode)) && (w.armed || w.stray)
  }

  predicate UpdatingInv(u: Updating) {
    match u
    case Sending(k, rc) => ChannelsInRange(rc) && k <= 3
    case SendingFlag(rc) => ChannelsInRange(rc)
    case SetChannel(k, rc) => ChannelsInRange(rc) && k <= 3
    case Elsewhere => false
    case _ => true
  }

  /** What every interleaving keeps. */
  predicate Inv(w: World) {
    && Reachable(w.mode) && ControlInv(w) && UpdatingInv(w.updating)
    && ChannelsInRange(w.rc) && (forall f :: f in w.frames ==> ChannelsInRange(f.rc))
    && (w.armed && w.mode == Disarmed ==> Arms(w.control))
    && (!w.armed && w.mode != Disarmed ==> Disarms(w.control) || w.stray)
    && (w.stray ==> w.mode != Disarmed)
  }

  lemma BeginKeepsInv(w: World, order: Order)
    requires Inv(w) && w.control == Waiting
    ensures Inv(w.(control := Decide(w.mode, order)))
  {
  }

  lemma ChannelStaysInRange(rc: Rc, from: Rc, k: nat)
    requires ChannelsInRange(rc) && ChannelsInRange(from)
    ensures ChannelsInRange(WithChannel(rc, k, Channel(from, k)))
  {
  }

  lemma ControlKeepsInv(w: World)
    requires Inv(w) && NextControl(w).Some?
    ensures Inv(NextControl(w).value)
  {
    if w.control.ArmChannel? || w.control.ArmIdle? || w.control.DisarmChannel? {
      ChannelStaysInRange(w.rc, IDLE, w.control.k);
    }
    hide WithChannel, Channel, UpdatingInv;
  }

  lemma UpdateKeepsInv(w: World, target: Rc)
    requires Inv(w) && NextUpdate(w, target).Some?
    ensures Inv(NextUpdate(w, target).value)
  {
    hide WithChannel, Channel;
    match w.updating
    case Sending(k, rc) => ChannelStaysInRange(rc, w.rc, k);
    case SetChannel(k, rc) => ChannelStaysInRange(w.rc, rc, k);
    case _ =>
  }

  lemma NextKeepsInv(w: World, a: Access)
    requires Inv(w) && Next(w, a).Some?
    ensures Inv(Next(w, a).value)
  {
    match a
    case Begin(order) => BeginKeepsInv(w, order);
    case Proceed => ControlKeepsInv(w);
    case BeginSend =>
    case Update(target) => UpdateKeepsInv(w, target);
  }

  /** The world after a run, None if some access was not possible. */
  function Run(run: seq<Access>): Option<World> {
    if run == [] then Some(START)
    else
      match Run(run[..|run|-1])
      case None => None
      case Some(w) => Next(w, run[|run|-1])
  }

  /**
   In every interleaving only six modes are reached, so that the exception for a bad mode is
   never thrown, and a mode other than Disarmed with the flag clear is seen only inside
   `disarm` or after a stray store of the updating thread.
   */
  lemma {:induction false} RunKeepsInv(run: seq<Access>)
    requires Run(run).Some?
    ensures Inv(Run(run).value)
  {
    if run != [] {
      RunKeepsInv(run[..|run|-1]);
      NextKeepsInv(Run(run[..|run|-1]).value, run[|run|-1]);
    }
  }

  /** What an access does to a condition. */
  datatype Mark = Sets | Clears | Leaves

  /** Some access has set the condition, and none has cleared it since. */
  ghost predicate SetSince(marks: seq<Mark>) {
    exists i :: 0 <= i < |marks| && marks[i] == Sets && forall j :: i < j < |marks| ==> marks[j] != Clears
  }

  lemma SetSinceStep(marks: seq<Mark>, mark: Mark)
    ensures SetSince(marks + [mark]) <==> mark == Sets || (SetSince(marks) && mark != Clears)
  {
    var all := marks + [mark];
    assert all[|marks|] == mark && forall i :: 0 <= i < |marks| ==> all[i] == marks[i];
    if mark == Sets {
      assert all[|marks|] == Sets;
    } else if SetSince(marks) && mark != Clears {
      var i :| 0 <= i < |marks| && marks[i] == Sets && forall j :: i < j < |marks| ==> marks[j] != Clears;
      assert all[i] == Sets;
    }
  }

  /** The store of an arm order sets the flag, that of a disarm order clears it. */
  function FlagMark(w: World, a: Access): Mark {
    if a == Proceed && w.control.ArmFlag? then Sets
    else if a == Proceed && w.control.DisarmFlag? then Clears
    else Leaves
  }

  function FlagMarks(run: seq<Access>): seq<Mark>
    requires Run(run).Some?
  {
    if run == [] then []
    else
      var before := run[..|run|-1];
      FlagMarks(before) + [FlagMark(Run(before).value, run[|run|-1])]
  }

  /** The flag is what its history says. */
  lemma {:induction false} FlagHistory(run: seq<Access>)
    requires Run(run).Some?
    ensures Run(run).value.armed <==> SetSince(FlagMarks(run))
  {
    if run != [] {
      hide SetSince;
      var before := run[..|run|-1];
      FlagHistory(before);
      SetSinceStep(FlagMarks(before), FlagMark(Run(before).value, run[|run|-1]));
    }
  }

  /** Frame number `k` of the run is `f`, completed by a read of the flag after the first `n` accesses. */
  ghost predicate SentAfter(run: seq<Access>, n: nat, k: nat, f: Frame) {
    && n < |run| && run[n].Update? && Run(run[..n]).Some?
    && Run(run[..n]).value.updating == SendingFlag(f.rc) && |Run(run[..n]).value.frames| == k
    && f == ToFrame(f.rc, SetSince(FlagMarks(run[..n])))
  }

  /** Only the last access of `sendRC` completes a frame. */
  lemma FramesStep(w: World, a: Access)
    requires Next(w, a).Some?
    ensures Next(w, a).value.frames ==
              if a.Update? && w.updating.SendingFlag?
              then w.frames + [ToFrame(w.updating.rc, w.armed)]
              else w.frames
  {
  }

  /** The auxiliary channel is high exactly in the frames whose read of the flag lies between the store of an arm order and the next of a disarm order. */
  lemma {:induction false} FramesFollowFlag(run: seq<Access>, k: nat)
    requires Run(run).Some? && k < |Run(run).value.frames|
    ensures exists n :: SentAfter(run, n, k, Run(run).value.frames[k])
  {
    hide SetSince, Next, FlagMarks;
    if run != [] {
      var before := run[..|run|-1];
      var f := Run(run).value.frames[k];
      FramesStep(Run(before).value, run[|run|-1]);
      if k < |Run(before).value.frames| {
        FramesFollowFlag(before, k);
        var n: nat :| SentAfter(before, n, k, f);
        assert run[..n] == before[..n];
        assert SentAfter(run, n, k, f);
      } else {
        FlagHistory(before);
        assert SentAfter(run, |before|, k, f);
      }
    }
  }

  /** The updating thread's store of its mode while the flag is clear is stray, until a disarm order stores Disarmed. */
  function StrayMark(w: World, a: Access): Mark {
    if a.Update? && w.updating.StoreVelocity? && !w.armed then Sets
    else if a == Proceed && w.control.DisarmMode? then Clears
    else Leaves
  }

  function StrayMarks(run: seq<Access>): seq<Mark>
    requires Run(run).Some?
  {
    if run == [] then []
    else
      var before := run[..|run|-1];
      StrayMarks(before) + [StrayMark(Run(before).value, run[|run|-1])]
  }

  lemma {:induction false} StrayHistory(run: seq<Access>)
    requires Run(run).Some?
    ensures Run(run).value.stray <==> SetSince(StrayMarks(run))
  {
    if run != [] {
      hide SetSince;
      var before := run[..|run|-1];
      StrayHistory(before);
      SetSinceStep(StrayMarks(before), StrayMark(Run(before).value, run[|run|-1]));
    }
  }

  /**
   Where the mode is not Disarmed and the flag is clear, either a disarm order has cleared the
   flag and not finished, or the updating thread has stored its mode while the flag was clear
   and no disarm order has stored Disarmed since.
   */
  lemma ModeWithoutFlag(run: seq<Access>)
    requires Run(run).Some? && Run(run).value.mode != Disarmed && !Run(run).value.armed
    ensures Disarms(Run(run).value.control) || SetSince(StrayMarks(run))
  {
    RunKeepsInv(run);
    StrayHistory(run);
  }

  /**
   Between orders the flag agrees with the mode exactly if it is set, or no stray store is
   outstanding.
   */
  lemma FlagMatchesMode(run: seq<Access>)
    requires Run(run).Some? && Run(run).value.control == Waiting
    ensures var w := Run(run).value;
            (w.armed <==> w.mode != Disarmed) <==> w.armed || !SetSince(StrayMarks(run))
  {
    RunKeepsInv(run);
    StrayHistory(run);
  }

  /** A take-off order sets the mode TakeOff; the stores of Armed and Disarmed take that back. */
  function TakeOffMark(w: World, a: Access): Mark {
    if a == Proceed && w.control == StoreMode(TakeOff) then Sets
    else if a == Proceed && (w.control.ArmMode? || w.control.DisarmMode?) then Clears
    else Leaves
  }

  function TakeOffMarks(run: seq<Access>): seq<Mark>
    requires Run(run).Some?
  {
    if run == [] then []
    else
      var before := run[..|run|-1];
      TakeOffMarks(before) + [TakeOffMark(Run(before).value, run[|run|-1])]
  }

  /** The updating thread's store of its mode is late where the drone is not in a mode to fly. */
  function LateMark(w: World, a: Access): Mark {
    if a.Update? && w.updating.StoreVelocity? && !MayFly(w.mode) then Sets
    else if a == Proceed && (w.control.ArmMode? || w.control.DisarmMode? || w.control == StoreMode(TakeOff)) then Clears
    else Leaves
  }

  function LateMarks(run: seq<Access>): seq<Mark>
    requires Run(run).Some?
  {
    if run == [] then []
    else
      var before := run[..|run|-1];
      LateMarks(before) + [LateMark(Run(before).value, run[|run|-1])]
  }

  /** Which accesses store the mode. */
  lemma ModeStep(w: World, a: Access)
    requires Next(w, a).Some?
    ensures Next(w, a).value.mode ==
              if a == Proceed && w.control.ArmMode? then Armed
              else if a == Proceed && w.control.DisarmMode? then Disarmed
              else if a == Proceed && w.control.StoreMode? then w.control.mode
              else if a.Update? && w.updating.StoreVelocity? then VelocityControl
              else w.mode
  {
  }

  /**
   A drone in a mode to fly has been told to take off since it was last armed or disarmed,
   exactly if no late store has put it there.
   */
  lemma {:induction false} FlyingHistory(run: seq<Access>)
    requires Run(run).Some?
    ensures SetSince(TakeOffMarks(run)) <==> MayFly(Run(run).value.mode) && !SetSince(LateMarks(run))
    ensures SetSince(LateMarks(run)) ==> MayFly(Run(run).value.mode)
  {
    if run != [] {
      hide SetSince;
      var before, last := run[..|run|-1], run[|run|-1];
      FlyingHistory(before);
      RunKeepsInv(before);
      SetSinceStep(TakeOffMarks(before), TakeOffMark(Run(before).value, last));
      SetSinceStep(LateMarks(before), LateMark(Run(before).value, last));
      ModeStep(Run(before).value, last);
    } else {
      assert !SetSince([]);
    }
  }

  predicate Idles(c: Control, k: nat) {
    (c.ArmChannel? || c.ArmIdle? || c.DisarmChannel?) && c.k == k
  }

  /** An order's store to channel `k` idles it; a store of the updating thread may open it. */
  function ChannelMark(w: World, a: Access, k: nat): Mark {
    if a == Proceed && Idles(w.control, k) then Clears
    else if a.Update? && w.updating.SetChannel? && w.updating.k == k then
      if Channel(w.updating.target, k) == Channel(IDLE, k) then Clears else Sets
    else Leaves
  }

  function ChannelMarks(run: seq<Access>, k: nat): seq<Mark>
    requires Run(run).Some?
  {
    if run == [] then []
    else
      var before := run[..|run|-1];
      ChannelMarks(before, k) + [ChannelMark(Run(before).value, run[|run|-1], k)]
  }

  /** Which accesses store a channel. */
  lemma ChannelStep(w: World, a: Access, k: nat)
    requires Next(w, a).Some? && Inv(w) && k <= 3
    ensures Channel(Next(w, a).value.rc, k) ==
              if a == Proceed && Idles(w.control, k) then Channel(IDLE, k)
              else if a.Update? && w.updating.SetChannel? && w.updating.k == k then Channel(w.updating.target, k)
              else Channel(w.rc, k)
  {
  }

  /** A channel is idle exactly if the updating thread has not opened it since an order idled it. */
  lemma {:induction false} ChannelHistory(run: seq<Access>, k: nat)
    requires Run(run).Some? && k <= 3
    ensures Channel(Run(run).value.rc, k) != Channel(IDLE, k) <==> SetSince(ChannelMarks(run, k))
  {
    if run != [] {
      hide SetSince;
      var before, last := run[..|run|-1], run[|run|-1];
      ChannelHistory(before, k);
      RunKeepsInv(before);
      SetSinceStep(ChannelMarks(before, k), ChannelMark(Run(before).value, last, k));
      ChannelStep(Run(before).value, last, k);
    } else {
      assert !SetSince([]);
    }
  }

  /** So the channels are idle, as they should be before the drone flies, exactly if none is open. */
  lemma IdleExactly(run: seq<Access>)
    requires Run(run).Some?
    ensures Run(run).value.rc == IDLE <==> forall k :: 0 <= k <= 3 ==> !SetSince(ChannelMarks(run, k))
  {
    ChannelHistory(run, 0);
    ChannelHistory(run, 1);
    ChannelHistory(run, 2);
    ChannelHistory(run, 3);
    hide SetSince, Run, ChannelMarks;
  }

  /** The channels that `sendRC` has read so far: those below `k`. */
  predicate HasRead(u: Updating, k: nat) {
    (u.Sending? && k < u.k) || u.SendingFlag?
  }

  /** An order that idles a channel makes an open one that `sendRC` has read stale; reading it again is what clears that. */
  function StaleMark(w: World, a: Access, k: nat): Mark {
    if a.Update? && w.updating.Sending? && w.updating.k == k then Clears
    else if a == Proceed && Idles(w.control, k) && HasRead(w.updating, k) && Channel(w.updating.rc, k) != Channel(IDLE, k) then Sets
    else Leaves
  }

  function StaleMarks(run: seq<Access>, k: nat): seq<Mark>
    requires Run(run).Some?
  {
    if run == [] then []
    else
      var before := run[..|run|-1];
      StaleMarks(before, k) + [StaleMark(Run(before).value, run[|run|-1], k)]
  }

  /** What `sendRC` does to the channels it has read. */
  lemma SnapshotStep(w: World, a: Access, k: nat)
    requires Next(w, a).Some? && Inv(w) && k <= 3 && HasRead(Next(w, a).value.updating, k)
    ensures if a.Update? && w.updating.Sending? && w.updating.k == k
            then Channel(Next(w, a).value.updating.rc, k) == Channel(w.rc, k)
            else HasRead(w.updating, k) && Channel(Next(w, a).value.updating.rc, k) == Channel(w.updating.rc, k)
  {
  }

  /** The thread that sends does not store channels meanwhile. */
  lemma SenderStores(w: World, a: Access)
    requires w.updating.Sending? || w.updating.SendingFlag?
    ensures !(a.Update? && w.updating.SetChannel?)
  {
  }

  /** A channel that `sendRC` has read differs from the shared one exactly if an order has idled it, while open, since the read. */
  lemma {:induction false} StaleHistory(run: seq<Access>, k: nat)
    requires Run(run).Some? && k <= 3 && HasRead(Run(run).value.updating, k)
    ensures Channel(Run(run).value.updating.rc, k) != Channel(Run(run).value.rc, k) <==> SetSince(StaleMarks(run, k))
    ensures Channel(Run(run).value.rc, k) in {Channel(Run(run).value.updating.rc, k), Channel(IDLE, k)}
  {
    hide SetSince, Next, Channel;
    var before, a := run[..|run|-1], run[|run|-1];
    var w := Run(before).value;
    RunKeepsInv(before);
    SnapshotStep(w, a, k);
    ChannelStep(w, a, k);
    SetSinceStep(StaleMarks(before, k), StaleMark(w, a, k));
    SenderStores(w, a);
    if HasRead(w.updating, k) && !(a.Update? && w.updating.Sending? && w.updating.k == k) {
      StaleHistory(before, k);
    }
  }

  /**
   A frame carries the shared channels as they are at its read of the flag exactly if no order
   has idled an open channel after it was read.
   */
  lemma FrameIsCurrent(run: seq<Access>, n: nat, k: nat, f: Frame)
    requires Run(run).Some? && SentAfter(run, n, k, f)
    ensures var w := Run(run[..n]).value;
            f == ToFrame(w.rc, w.armed) <==> forall c :: 0 <= c <= 3 ==> !SetSince(StaleMarks(run[..n], c))
  {
    var before := run[..n];
    FlagHistory(before);
    StaleHistory(before, 0);
    StaleHistory(before, 1);
    StaleHistory(before, 2);
    StaleHistory(before, 3);
    hide SetSince, Run, StaleMarks;
  }

  lemma Extend(run: seq<Access>, a: Access) returns (longer: seq<Access>)
    requires Run(run).Some?
    ensures longer == run + [a] && Run(longer) == Next(Run(run).value, a)
  {
    longer := run + [a];
    assert longer[..|run|] == run;
  }

  /** An access of an order. */
  predicate OfOrder(a: Access) {
    a.Begin? || a.Proceed?
  }

  /** `r` continues a run with accesses of orders only, or of the updating thread only. */
  predicate Continues(run: seq<Access>, r: seq<Access>, orders: bool) {
    run <= r && forall i :: |run| <= i < |r| ==> OfOrder(r[i]) == orders
  }

  /** An undisturbed arm order from Disarmed. */
  lemma ArmOrder(run: seq<Access>) returns (r: seq<Access>)
    requires Run(run).Some? && Run(run).value.control == Waiting && Run(run).value.mode == Disarmed
    ensures Continues(run, r, true)
    ensures Run(r) == Some(Run(run).value.(mode := Armed, armed := true, rc := IDLE))
  {
    hide Run;
    r := Extend(run, Begin(Arm));
    r := Extend(r, Proceed);
    r := Extend(r, Proceed);
    r := Extend(r, Proceed);
    r := Extend(r, Proceed);
    r := Extend(r, Proceed);
    r := Extend(r, Proceed);
    r := Extend(r, Proceed);
    r := Extend(r, Proceed);
    r := Extend(r, Proceed);
    r := Extend(r, Proceed);
  }

  /** An undisturbed disarm order from another mode. */
  lemma DisarmOrder(run: seq<Access>) returns (r: seq<Access>)
    requires Run(run).Some? && Run(run).value.control == Waiting && Run(run).value.mode !in {Disarmed, Disarming}
    ensures Continues(run, r, true)
    ensures Run(r) == Some(Run(run).value.(mode := Disarmed, armed := false, rc := IDLE, stray := false))
  {
    hide Run;
    r := Extend(run, Begin(Disarm));
    r := Extend(r, Proceed);
    r := Extend(r, Proceed);
    r := Extend(r, Proceed);
    r := Extend(r, Proceed);
    r := Extend(r, Proceed);
    r := Extend(r, Proceed);
  }

  /** A disarm order where the mode is Disarmed already. */
  lemma DisarmAgain(run: seq<Access>) returns (r: seq<Access>)
    requires Run(run).Some? && Run(run).value.control == Waiting && Run(run).value.mode == Disarmed
    ensures Run(r) == Some(Run(run).value.(armed := false, rc := IDLE))
  {
    hide Run;
    r := Extend(run, Begin(Disarm));
    r := Extend(r, Proceed);
    r := Extend(r, Proceed);
    r := Extend(r, Proceed);
    r := Extend(r, Proceed);
    r := Extend(r, Proceed);
  }

  function Flying(w: World): State {
    State(w.mode, w.armed, w.rc)
  }

  /** Undisturbed, the accesses of an order do what the whole call does. */
  lemma OrderAlone(run: seq<Access>, order: Order) returns (r: seq<Access>)
    requires Run(run).Some? && Run(run).value.control == Waiting && Reachable(Run(run).value.mode)
    ensures Run(r).Some? && Run(r).value.control == Waiting && Run(r).value.updating == Run(run).value.updating
    ensures Flying(Run(r).value) == Obey(Flying(Run(run).value), order)
  {
    hide Run;
    var mode := Run(run).value.mode;
    if order == Arm && mode == Disarmed {
      r := ArmOrder(run);
    } else if order == Disarm {
      if mode == Disarmed {
        r := DisarmAgain(run);
      } else {
        r := DisarmOrder(run);
      }
    } else {
      r := Extend(run, Begin(order));
      if Run(r).value.control != Waiting {
        r := Extend(r, Proceed);
      }
    }
  }

  /** An undisturbed update in TakeOff. */
  lemma LeaveTakeOff(run: seq<Access>) returns (r: seq<Access>)
    requires Run(run).Some? && Run(run).value.updating == Ready && Run(run).value.mode == TakeOff
    ensures Continues(run, r, false)
    ensures var w := Run(run).value;
            Run(r) == Some(w.(mode := VelocityControl, stray := w.stray || !w.armed))
  {
    hide Run;
    r := Extend(run, Update(IDLE));
    r := Extend(r, Update(IDLE));
    r := Extend(r, Update(IDLE));
  }

  /** The rest of an update in flight stores the four channels. */
  lemma StoreChannels(run: seq<Access>, target: Rc) returns (r: seq<Access>)
    requires Run(run).Some? && Run(run).value.updating == SetChannel(0, target)
    ensures Continues(run, r, false)
    ensures Run(r) == Some(Run(run).value.(rc := target, updating := Ready))
  {
    hide Run, InRawRange, InClamps;
    r := Extend(run, Update(target));
    r := Extend(r, Update(target));
    r := Extend(r, Update(target));
    r := Extend(r, Update(target));
  }

  /** An undisturbed update in flight. */
  lemma Steer(run: seq<Access>, target: Rc) returns (r: seq<Access>)
    requires Run(run).Some? && Run(run).value.updating == Ready
    requires Run(run).value.mode in {RawControl, VelocityControl, PositionControl}
    requires if Run(run).value.mode == RawControl then InRawRange(target) else InClamps(target)
    ensures Continues(run, r, false)
    ensures Run(r) == Some(Run(run).value.(rc := target))
  {
    hide Run, InRawRange, InClamps;
    r := Extend(run, Update(target));
    r := StoreChannels(r, target);
  }

  /** Undisturbed, the accesses of `updateController` do what the whole call does. */
  lemma UpdateAlone(run: seq<Access>, target: Rc, centre: real) returns (r: seq<Access>)
    requires Run(run).Some? && Run(run).value.updating == Ready && Reachable(Run(run).value.mode)
    requires if Run(run).value.mode == RawControl then InRawRange(target) else InClamps(target)
    ensures Continues(run, r, false)
    ensures Run(r).Some? && Run(r).value.updating == Ready && Run(r).value.control == Run(run).value.control
    ensures Updated(Flying(Run(run).value), Flying(Run(r).value), target, centre)
  {
    hide Run;
    var mode := Run(run).value.mode;
    if mode == TakeOff {
      r := LeaveTakeOff(run);
    } else if mode in {RawControl, VelocityControl, PositionControl} {
      r := Steer(run, target);
    } else {
      r := Extend(run, Update(target));
    }
  }

  /** Undisturbed, the accesses of `sendRC` send one frame of the channels and the flag. */
  lemma SendAlone(run: seq<Access>) returns (r: seq<Access>)
    requires Run(run).Some? && Run(run).value.updating == Ready
    ensures Continues(run, r, false)
    ensures var w := Run(run).value;
            Run(r) == Some(w.(frames := w.frames + [ToFrame(w.rc, w.armed)]))
  {
    hide Run;
    r := Extend(run, BeginSend);
    r := Extend(r, Update(IDLE));
    r := Extend(r, Update(IDLE));
    r := Extend(r, Update(IDLE));
    r := Extend(r, Update(IDLE));
    r := Extend(r, Update(IDLE));
  }

  /** The updating thread has decided to leave TakeOff and is about to store its mode. */
  lemma PendingVelocity() returns (r: seq<Access>)
    ensures Run(r) == Some(World(TakeOff, true, IDLE, Waiting, StoreVelocity, [], false))
  {
    r := [];
    assert Run(r) == Some(START);
    hide Run;
    r := ArmOrder(r);
    r := Extend(r, Begin(StartTakeOff));
    r := Extend(r, Proceed);
    r := Extend(r, Update(IDLE));
    r := Extend(r, Update(IDLE));
  }

  /**
   A disarm order that comes between the updating thread's read and store of the mode is half
   undone: when both are finished the mode is VelocityControl with the flag clear, and an arm
   order is then ignored.
   */
  lemma StrayStore() returns (r: seq<Access>)
    ensures Run(r) == Some(World(VelocityControl, false, IDLE, Waiting, Ready, [], true))
    ensures Run(r + [Begin(Arm)]) == Run(r)
  {
    r := PendingVelocity();
    hide Run;
    r := DisarmOrder(r);
    r := Extend(r, Update(IDLE));
    var armed := Extend(r, Begin(Arm));
  }

  /** With an arm order as well, the drone is armed and flying without having been told to take off. */
  lemma FlyingWithoutTakeOff() returns (r: seq<Access>)
    ensures Run(r) == Some(World(VelocityControl, true, IDLE, Waiting, Ready, [], false))
  {
    r := PendingVelocity();
    hide Run;
    r := DisarmOrder(r);
    r := ArmOrder(r);
    r := Extend(r, Update(IDLE));
  }

  /** Stores to the channels that were pending while the drone was disarmed and armed again leave it armed with the throttle open. */
  lemma OpenThrottle(target: Rc) returns (r: seq<Access>)
    requires InClamps(target)
    ensures Run(r) == Some(World(Armed, true, target, Waiting, Ready, [], false))
  {
    r := PendingVelocity();
    hide Run;
    r := Extend(r, Update(target));
    r := Extend(r, Update(target));
    r := DisarmOrder(r);
    r := ArmOrder(r);
    r := Extend(r, Update(target));
    r := Extend(r, Update(target));
    r := Extend(r, Update(target));
    r := Extend(r, Update(target));
  }
}
