/**
 The interleavings in which `updateController` and the orders exclude each other, as a lock
 held over each of them would ensure.  That keeps the shared state safe, but not the frames
 sent: `sendRC` reads the channels before the flag, and orders may come in between.  A lock
 held over `sendRC` as well makes every frame that of a safe state.
 */
module FlightExclusion {
  import opened Flight
  import opened FlightThreads
  import opened Options

  /** The updating thread is not inside `updateController`. */
  predicate Resting(u: Updating) {
    u.Ready? || u.Sending? || u.SendingFlag?
  }

  /** No order goes on inside `updateController`, and that does not begin inside an order. */
  predicate Excludes(w: World, a: Access) {
    match a
    case Begin(_) => Resting(w.updating)
    case Proceed => Resting(w.updating)
    case BeginSend => true
    case Update(_) => w.updating == Ready ==> w.control == Waiting
  }

  predicate Exclusive(run: seq<Access>)
    requires Run(run).Some?
  {
    run == [] || (Exclusive(run[..|run|-1]) && Excludes(Run(run[..|run|-1]).value, run[|run|-1]))
  }

  /** Channels below `k` are those of `target`. */
  predicate SetBelow(rc: Rc, target: Rc, k: nat) {
    && (k > 0 ==> rc.roll == target.roll) && (k > 1 ==> rc.pitch == target.pitch) && (k > 2 ==> rc.yaw == target.yaw)
  }

  /** How far an order has come. */
  predicate OrderInv(w: World) {
    match w.control
    case Waiting => true
    case ArmFlag => Safe(Flying(w)) && w.mode == Disarmed
    case ArmChannel(k) => w.mode == Disarmed && w.armed && w.rc == IDLE
    case ArmMode => w.mode == Disarmed && w.armed && w.rc == IDLE
    case ArmIdle(k) => w.mode == Armed && w.armed && w.rc == IDLE
    case DisarmFlag(seen) => Safe(Flying(w)) && seen == w.mode
    case DisarmChannel(seen, k) => Reachable(w.mode) && seen == w.mode && !w.armed && k <= 3 && SetBelow(w.rc, IDLE, k)
    case DisarmMode => Reachable(w.mode) && !w.armed && w.rc == IDLE
    case StoreMode(mode) =>
      Safe(Flying(w)) && if mode == TakeOff then w.mode == Armed else MayFly(mode) && MayFly(w.mode)
  }

  /** How far an update has come. */
  predicate UpdateInv(w: World) {
    match w.updating
    case ReadAgain => Safe(Flying(w)) && w.mode == TakeOff
    case StoreVelocity => Safe(Flying(w)) && w.mode == TakeOff
    case SetChannel(k, target) =>
      && w.mode in {RawControl, VelocityControl, PositionControl} && w.armed && k <= 3
      && (InClamps(target) || InRawRange(target)) && SetBelow(w.rc, target, k)
    case Elsewhere => false
    case _ => w.control == Waiting ==> Safe(Flying(w))
  }

  predicate ExclusiveInv(w: World) {
    && OrderInv(w) && UpdateInv(w) && (w.control == Waiting || Resting(w.updating))
  }

  lemma OrderKeeps(w: World, a: Access)
    requires ExclusiveInv(w) && (a.Begin? || a.Proceed?) && Excludes(w, a) && Next(w, a).Some?
    ensures ExclusiveInv(Next(w, a).value)
  {
  }

  lemma UpdateKeeps(w: World, a: Access)
    requires ExclusiveInv(w) && (a.BeginSend? || a.Update?) && Excludes(w, a) && Next(w, a).Some?
    ensures ExclusiveInv(Next(w, a).value)
  {
  }

  /**
   With exclusion the invariant of whole calls holds whenever no order and no update is under
   way: the flag agrees with the mode, and the channels are idle until the drone flies and in
   range while it does.
   */
  lemma {:induction false} ExclusiveIsSafe(run: seq<Access>)
    requires Run(run).Some? && Exclusive(run)
    ensures ExclusiveInv(Run(run).value)
    ensures Run(run).value.control == Waiting && Resting(Run(run).value.updating) ==> Safe(Flying(Run(run).value))
  {
    if run != [] {
      var w, a := Run(run[..|run|-1]).value, run[|run|-1];
      ExclusiveIsSafe(run[..|run|-1]);
      if a.Begin? || a.Proceed? {
        OrderKeeps(w, a);
      } else {
        UpdateKeeps(w, a);
      }
    }
  }

  lemma NothingSet()
    ensures !SetSince([])
  {
  }

  /** With exclusion no store of the updating thread is stray or late, so that only a take-off order lets the drone fly. */
  lemma {:induction false} NothingStray(run: seq<Access>)
    requires Run(run).Some? && Exclusive(run)
    ensures !SetSince(StrayMarks(run)) && !SetSince(LateMarks(run))
    ensures MayFly(Run(run).value.mode) <==> SetSince(TakeOffMarks(run))
  {
    hide SetSince;
    FlyingHistory(run);
    if run == [] {
      NothingSet();
    } else {
      var before, last := run[..|run|-1], run[|run|-1];
      NothingStray(before);
      ExclusiveIsSafe(before);
      SetSinceStep(StrayMarks(before), StrayMark(Run(before).value, last));
      SetSinceStep(LateMarks(before), LateMark(Run(before).value, last));
    }
  }

  /** Each thread keeps its own place. */
  lemma PlacesStep(w: World, a: Access)
    requires Next(w, a).Some?
    ensures OfOrder(a) ==> Next(w, a).value.updating == w.updating
    ensures !OfOrder(a) ==> Next(w, a).value.control == w.control
  {
  }

  /** What continues an exclusive run undisturbed leaves it exclusive. */
  lemma {:induction false} ContinuesExclusively(run: seq<Access>, r: seq<Access>, orders: bool)
    requires Run(run).Some? && Exclusive(run) && Run(r).Some? && Continues(run, r, orders)
    requires if orders then Resting(Run(run).value.updating) else Run(run).value.control == Waiting
    ensures Exclusive(r)
    ensures if orders then Run(r).value.updating == Run(run).value.updating else Run(r).value.control == Waiting
    decreases |r|
  {
    hide Next;
    if |r| == |run| {
      assert r == run;
    } else {
      var before := r[..|r|-1];
      assert run <= before;
      ContinuesExclusively(run, before, orders);
      PlacesStep(Run(before).value, r[|r|-1]);
    }
  }

  /** The drone has been armed and told to take off. */
  lemma TakingOff() returns (r: seq<Access>)
    ensures Run(r) == Some(World(TakeOff, true, IDLE, Waiting, Ready, [], false)) && Exclusive(r)
  {
    var start: seq<Access> := [];
    assert Run(start) == Some(START) && Exclusive(start);
    hide Run, Exclusive;
    r := ArmOrder(start);
    r := Extend(r, Begin(StartTakeOff));
    r := Extend(r, Proceed);
    ContinuesExclusively(start, r, true);
  }

  /** The drone flies under the command `target`, and `sendRC` has read the channels. */
  lemma ChannelsRead(target: Rc) returns (r: seq<Access>)
    requires InClamps(target)
    ensures Run(r) == Some(World(VelocityControl, true, target, Waiting, SendingFlag(target), [], false)) && Exclusive(r)
  {
    hide Run, Exclusive, InClamps;
    var start := TakingOff();
    r := LeaveTakeOff(start);
    r := Steer(r, target);
    r := Extend(r, BeginSend);
    r := Extend(r, Update(target));
    r := Extend(r, Update(target));
    r := Extend(r, Update(target));
    r := Extend(r, Update(target));
    ContinuesExclusively(start, r, false);
  }

  /**
   Exclusion of updates alone does not protect the frames: `sendRC` reads the channels in
   flight, a disarm and an arm order follow, and the flag is read last.  The board is told to
   arm with the throttle open, though the drone is idle and has not been told to take off again.
   */
  lemma OpenFrame(target: Rc) returns (r: seq<Access>)
    requires InClamps(target)
    ensures Run(r) == Some(World(Armed, true, IDLE, Waiting, Ready, [Frame(target, 1800)], false)) && Exclusive(r)
  {
    hide Run, Exclusive, InClamps;
    var read := ChannelsRead(target);
    var armed := DisarmOrder(read);
    armed := ArmOrder(armed);
    ContinuesExclusively(read, armed, true);
    assert [] + [Frame(target, 1800)] == [Frame(target, 1800)];
    r := Extend(armed, Update(IDLE));
    ContinuesExclusively(armed, r, false);
  }

  /** Orders and sending exclude each other as well. */
  predicate ExcludesSends(w: World, a: Access) {
    match a
    case Begin(_) => w.updating == Ready
    case Proceed => w.updating == Ready
    case BeginSend => w.control == Waiting
    case Update(_) => w.updating == Ready ==> w.control == Waiting
  }

  predicate FullyExclusive(run: seq<Access>)
    requires Run(run).Some?
  {
    run == [] || (FullyExclusive(run[..|run|-1]) && ExcludesSends(Run(run[..|run|-1]).value, run[|run|-1]))
  }

  lemma {:induction false} FullyIsExclusive(run: seq<Access>)
    requires Run(run).Some? && FullyExclusive(run)
    ensures Exclusive(run)
  {
    if run != [] {
      FullyIsExclusive(run[..|run|-1]);
    }
  }

  /** What `sendRC` has read is what the channels are. */
  predicate SendInv(w: World) {
    match w.updating
    case Sending(k, rc) => w.control == Waiting && k <= 3 && SetBelow(rc, w.rc, k)
    case SendingFlag(rc) => w.control == Waiting && rc == w.rc
    case _ => true
  }

  lemma SendKeeps(w: World, a: Access)
    requires SendInv(w) && ExcludesSends(w, a) && Next(w, a).Some?
    ensures SendInv(Next(w, a).value)
  {
  }

  /** The run ends in a safe state, and `f` is the frame of its channels and flag. */
  predicate SafeFrame(run: seq<Access>, f: Frame) {
    match Run(run)
    case None => false
    case Some(w) => Safe(Flying(w)) && f == ToFrame(w.rc, w.armed)
  }

  lemma {:induction false} ReadsAreCurrent(run: seq<Access>)
    requires Run(run).Some? && FullyExclusive(run)
    ensures SendInv(Run(run).value)
  {
    if run != [] {
      hide Next, ExcludesSends;
      ReadsAreCurrent(run[..|run|-1]);
      SendKeeps(Run(run[..|run|-1]).value, run[|run|-1]);
    }
  }

  lemma {:induction false} StartIsExclusive(run: seq<Access>, n: nat)
    requires Run(run).Some? && FullyExclusive(run) && n <= |run|
    ensures Run(run[..n]).Some? && FullyExclusive(run[..n])
  {
    hide Next, ExcludesSends;
    if n == |run| {
      assert run[..n] == run;
    } else {
      var before := run[..|run|-1];
      StartIsExclusive(before, n);
      assert run[..n] == before[..n];
    }
  }

  /** With full exclusion every frame sent is that of a safe state, the one in which its flag was read. */
  lemma FramesAreSafe(run: seq<Access>, k: nat)
    requires Run(run).Some? && FullyExclusive(run) && k < |Run(run).value.frames|
    ensures exists n: nat :: SentAfter(run, n, k, Run(run).value.frames[k]) && SafeFrame(run[..n], Run(run).value.frames[k])
  {
    hide Next, SetSince, FlagMarks;
    var f := Run(run).value.frames[k];
    FramesFollowFlag(run, k);
    var n: nat :| SentAfter(run, n, k, f);
    StartIsExclusive(run, n);
    ReadsAreCurrent(run[..n]);
    FlagHistory(run[..n]);
    FullyIsExclusive(run[..n]);
    ExclusiveIsSafe(run[..n]);
    assert SafeFrame(run[..n], f);
  }
}
