/**
 Runs of one watchdog: the thread that checks it and the thread that owns it take their
 accesses to the shared count and maximum in any order.  Other watchdogs have accesses of
 their own and share only the clock.
 */
module WatchdogRuns {
  import opened Options
  import opened Watchdog

  /** The accesses of `check_thread`, of `start` (two stores), of `ok` and of `stop`. */
  datatype Access =
    | Elapse(sleep: Sleep) | Increment | ReadMax | ReadCount | Compare
    | StartCount | StartMax | Ok | Stop

  /** Where the checking thread is; `since` is the history of the count it has read. */
  datatype Check = Sleeping | Woken(ticks: nat) | Incremented | Guarded | Counted(seen: nat, since: Clock)

  datatype Owner = Idle | Starting

  /**
   `clock`, `count` and `max` are the variables of the source.  `checked` remembers the clock
   of the last increment, and `base` that of the last increment before the count was zeroed.
   */
  datatype State = State(clock: Clock, count: nat, max: nat, check: Check, owner: Owner, checked: Clock, base: Clock)

  const INITIAL := State(Clock(0, 0), 0, 0, Sleeping, Idle, Clock(0, 0), Clock(0, 0))

  /** The state after an access; None where the thread is elsewhere. */
  function Next(duration: nat, s: State, a: Access): Option<State>
    requires s.clock.extra <= EPOCH
  {
    match a
    case Elapse(sleep) =>
      if !s.check.Sleeping? then None
      else
        var (ticks, extra) := Tick(s.clock.extra, sleep);
        Some(s.(clock := Clock(s.clock.total + sleep, extra), check := Woken(ticks)))
    case Increment =>
      if !s.check.Woken? then None
      else Some(s.(count := s.count + s.check.ticks, checked := s.clock, check := Incremented))
    case ReadMax =>
      if !s.check.Incremented? then None else Some(s.(check := if s.max != 0 then Guarded else Sleeping))
    case ReadCount =>
      if !s.check.Guarded? then None else Some(s.(check := Counted(s.count, s.base)))
    case Compare =>
      if !s.check.Counted? then None else Some(s.(check := Sleeping))
    case StartCount =>
      if !s.owner.Idle? then None else Some(s.(count := 0, base := s.checked, owner := Starting))
    case StartMax =>
      if !s.owner.Starting? then None else Some(s.(max := Epochs(duration), owner := Idle))
    case Ok =>
      if !s.owner.Idle? then None else Some(s.(count := 0, base := s.checked))
    case Stop =>
      if !s.owner.Idle? then None else Some(s.(max := 0))
  }

  /** A check kills when the count it has read exceeds the maximum it reads now. */
  predicate Kills(s: State) {
    s.check.Counted? && s.check.seen > s.max
  }

  /** Ticks account for the time between two increments, up to what was carried. */
  predicate Accounts(ticks: nat, since: Clock, now: Clock) {
    EPOCH * ticks + now.extra - since.extra == now.total - since.total && now.extra <= EPOCH && since.extra <= EPOCH
  }

  predicate Inv(duration: nat, s: State) {
    && s.clock.extra <= EPOCH
    && Accounts(s.count, s.base, s.checked)
    && Accounts(if s.check.Woken? then s.check.ticks else 0, s.checked, s.clock)
    && (s.check.Counted? ==> Accounts(s.check.seen, s.check.since, s.checked))
    && (s.check.Woken? ==> s.check.ticks > 0)
    && (s.max == 0 || s.max == Epochs(duration))
  }

  /** Every access keeps the accounts. */
  lemma NextKeepsInv(duration: nat, s: State, a: Access)
    requires Inv(duration, s) && Next(duration, s, a).Some?
    ensures Inv(duration, Next(duration, s, a).value)
  {
  }

  /** Undisturbed, the accesses of one round do what `Watchdogs.Check` does to a watchdog. */
  lemma RoundIsCheck(duration: nat, s: State, sleep: Sleep)
    requires Inv(duration, s) && s.check.Sleeping?
    ensures var woken := Next(duration, s, Elapse(sleep)).value;
            var added := Next(duration, woken, Increment).value;
            var guarded := Next(duration, added, ReadMax).value;
            && (added.count, added.clock.extra) == (s.count + Tick(s.clock.extra, sleep).0, Tick(s.clock.extra, sleep).1)
            && if guarded.check.Guarded?
               then Late(added.count, s.max) <==> Kills(Next(duration, guarded, ReadCount).value)
               else !Late(added.count, s.max)
  {
  }

  /** The state after a run, None if some access was not possible. */
  function Run(duration: nat, run: seq<Access>): (r: Option<State>)
    ensures r.Some? ==> Inv(duration, r.value)
  {
    if run == [] then Some(INITIAL)
    else
      match Run(duration, run[..|run|-1])
      case None => None
      case Some(s) =>
        var r := Next(duration, s, run[|run|-1]);
        if r.Some? then NextKeepsInv(duration, s, run[|run|-1]); r else r
  }

  /** The truncated time of a run. */
  function Elapsed(run: seq<Access>): nat {
    if run == [] then 0
    else Elapsed(run[..|run|-1]) + if run[|run|-1].Elapse? then run[|run|-1].sleep else 0
  }

  /** The time of the last check, which is when it woke. */
  function LastCheck(run: seq<Access>): nat {
    if run == [] then 0
    else if run[|run|-1].Increment? then Elapsed(run)
    else LastCheck(run[..|run|-1])
  }

  predicate IsReset(a: Access) {
    a.StartCount? || a.Ok?
  }

  /** The run up to the latest `start` or `ok`. */
  function LatestReset(run: seq<Access>): seq<Access> {
    if run == [] || IsReset(run[|run|-1]) then run else LatestReset(run[..|run|-1])
  }

  /** The run up to the last read of the count. */
  function LatestRead(run: seq<Access>): seq<Access> {
    if run == [] || run[|run|-1].ReadCount? then run else LatestRead(run[..|run|-1])
  }

  /** The time of the last check before the latest `start` or `ok`. */
  function CheckBeforeReset(run: seq<Access>): nat {
    LastCheck(LatestReset(run))
  }

  /** The same as of when the count was last read. */
  function CheckBeforeResetSeen(run: seq<Access>): nat {
    CheckBeforeReset(LatestRead(run))
  }

  /** What an access does to the remembered clocks. */
  lemma ClocksStep(duration: nat, s: State, a: Access)
    requires Inv(duration, s) && Next(duration, s, a).Some?
    ensures var t := Next(duration, s, a).value;
            && t.clock.total == s.clock.total + (if a.Elapse? then a.sleep else 0)
            && t.checked.total == (if a.Increment? then s.clock.total else s.checked.total)
            && t.base.total == (if IsReset(a) then s.checked.total else s.base.total)
            && (t.check.Counted? ==>
                  if a.ReadCount? then t.check.since.total == s.base.total else s.check.Counted? && t.check.since == s.check.since)
  {
    hide Tick, Epochs;
  }

  /** The clocks in the state are those of the run. */
  lemma {:induction false} ClocksOfRun(duration: nat, run: seq<Access>)
    requires Run(duration, run).Some?
    ensures var s := Run(duration, run).value;
            && s.clock.total == Elapsed(run)
            && s.checked.total == LastCheck(run)
            && s.base.total == CheckBeforeReset(run)
            && (s.check.Counted? ==> s.check.since.total == CheckBeforeResetSeen(run))
  {
    hide Next, Inv;
    if run != [] {
      ClocksOfRun(duration, run[..|run|-1]);
      ClocksStep(duration, Run(duration, run[..|run|-1]).value, run[|run|-1]);
    }
  }

  /** The ticks added in a run. */
  function Ticks(duration: nat, run: seq<Access>): nat
    requires Run(duration, run).Some?
  {
    if run == [] then 0
    else
      Ticks(duration, run[..|run|-1]) + if run[|run|-1].Increment? then Run(duration, run[..|run|-1]).value.check.ticks else 0
  }

  /** All of the time becomes ticks or is carried, and what is carried is at most an epoch. */
  lemma {:induction false} TimeIsTicksAndCarry(duration: nat, run: seq<Access>)
    requires Run(duration, run).Some?
    ensures var s := Run(duration, run).value;
            var pending := if s.check.Woken? then s.check.ticks else 0;
            EPOCH * (Ticks(duration, run) + pending) + s.clock.extra == Elapsed(run) && 0 <= s.clock.extra <= EPOCH
  {
    hide Inv;
    if run != [] {
      TimeIsTicksAndCarry(duration, run[..|run|-1]);
    }
  }

  /**
   No premature kill: when a started watchdog kills, its duration has passed between the last
   check before the latest `start` or `ok` that came before the count was read, and the check
   that kills.
   */
  lemma KillIsLate(duration: nat, run: seq<Access>)
    requires Run(duration, run).Some? && Kills(Run(duration, run).value) && Run(duration, run).value.max != 0
    ensures LastCheck(run) >= CheckBeforeResetSeen(run) + duration
  {
    EpochsRoundUp(duration);
    ClocksOfRun(duration, run);
  }

  /** A sleep that is over and has not been counted yet. */
  function Pending(run: seq<Access>): nat {
    if run == [] || run[|run|-1].Increment? then 0
    else if run[|run|-1].Elapse? then run[|run|-1].sleep
    else Pending(run[..|run|-1])
  }

  lemma {:induction false} TimeSinceCheck(duration: nat, run: seq<Access>)
    requires Run(duration, run).Some?
    ensures Elapsed(run) == LastCheck(run) + Pending(run)
    ensures Run(duration, run).value.check.Woken? || Pending(run) == 0
  {
    if run != [] {
      TimeSinceCheck(duration, run[..|run|-1]);
    }
  }

  lemma {:induction false} ResetIsStart(duration: nat, run: seq<Access>)
    requires Run(duration, run).Some?
    ensures Run(duration, LatestReset(run)).Some? && Run(duration, LatestRead(run)).Some?
  {
    hide Next;
    if run != [] {
      ResetIsStart(duration, run[..|run|-1]);
    }
  }

  /**
   Counted from `start` or `ok` itself, a kill comes at least the duration later, less a sleep
   that was over at that time and had not been counted.
   */
  lemma KillAfterReset(duration: nat, run: seq<Access>)
    requires Run(duration, run).Some? && Kills(Run(duration, run).value) && Run(duration, run).value.max != 0
    ensures var reset := LatestReset(LatestRead(run));
            Elapsed(run) >= Elapsed(reset) + duration - Pending(reset)
  {
    KillIsLate(duration, run);
    TimeSinceCheck(duration, run);
    ResetIsStart(duration, run);
    ResetIsStart(duration, LatestRead(run));
    TimeSinceCheck(duration, LatestReset(LatestRead(run)));
  }

  /** Whether `start` or `ok` came after the count was last read. */
  predicate ResetSinceRead(run: seq<Access>) {
    if run == [] then false
    else if run[|run|-1].ReadCount? then false
    else IsReset(run[|run|-1]) || ResetSinceRead(run[..|run|-1])
  }

  lemma {:induction false} ResetSeen(duration: nat, run: seq<Access>)
    requires Run(duration, run).Some? && Run(duration, run).value.check.Counted?
    ensures CheckBeforeReset(run) == if ResetSinceRead(run) then LastCheck(run) else CheckBeforeResetSeen(run)
  {
    var before := run[..|run|-1];
    if !run[|run|-1].ReadCount? {
      ResetSeen(duration, before);
    }
  }

  /** Counted from the latest `start` or `ok` of all, the duration has passed exactly if none came after the read. */
  lemma KillIsLateExactly(duration: nat, run: seq<Access>)
    requires Run(duration, run).Some? && Kills(Run(duration, run).value) && Run(duration, run).value.max != 0
    requires duration > 0
    ensures LastCheck(run) >= CheckBeforeReset(run) + duration <==> !ResetSinceRead(run)
  {
    KillIsLate(duration, run);
    ResetSeen(duration, run);
  }

  /** No missed deadline: a check that finds two epochs more than the maximum kills. */
  lemma LateIsKilled(duration: nat, run: seq<Access>)
    requires Run(duration, run).Some? && Run(duration, run).value.check.Counted?
    requires LastCheck(run) >= CheckBeforeResetSeen(run) + EPOCH * (Run(duration, run).value.max + 2)
    ensures Kills(Run(duration, run).value)
  {
    ClocksOfRun(duration, run);
  }

  /** And such a check gets that far: with the maximum set its next two accesses are enabled. */
  lemma LateCheckKills(duration: nat, run: seq<Access>)
    requires Run(duration, run).Some?
    requires var s := Run(duration, run).value; s.check.Incremented? && s.max != 0
    requires LastCheck(run) >= CheckBeforeReset(run) + EPOCH * (Run(duration, run).value.max + 2)
    ensures var check := run + [ReadMax, ReadCount];
            Run(duration, check).Some? && Kills(Run(duration, check).value)
  {
    var guarded, counted := run + [ReadMax], run + [ReadMax, ReadCount];
    assert guarded[..|run|] == run && counted[..|guarded|] == guarded;
    assert LastCheck(guarded) == LastCheck(run) && CheckBeforeReset(guarded) == CheckBeforeReset(run);
    assert CheckBeforeReset(counted) == CheckBeforeReset(run);
    LateIsKilled(duration, counted);
  }

  /** Whether `start` or `ok` has zeroed the count since the last increment. */
  predicate ResetSinceIncrement(run: seq<Access>) {
    run != [] && !run[|run|-1].Increment? && (IsReset(run[|run|-1]) || ResetSinceIncrement(run[..|run|-1]))
  }

  lemma {:induction false} CountHistory(duration: nat, run: seq<Access>)
    requires Run(duration, run).Some?
    requires var check := Run(duration, run).value.check; check.Incremented? || check.Guarded? || check.Counted?
    ensures Run(duration, run).value.count == 0 <==> ResetSinceIncrement(run)
    ensures Run(duration, run).value.check.Counted? ==>
              (Run(duration, run).value.check.seen == 0 <==> ResetSinceIncrement(LatestRead(run)))
  {
    if !run[|run|-1].Increment? {
      CountHistory(duration, run[..|run|-1]);
    }
  }

  /** A check that reads a maximum of zero kills exactly if `start` or `ok` has not zeroed the count between its increment and its read of the count. */
  lemma StoppedKillsExactly(duration: nat, run: seq<Access>)
    requires Run(duration, run).Some? && Run(duration, run).value.check.Counted? && Run(duration, run).value.max == 0
    ensures Kills(Run(duration, run).value) <==> !ResetSinceIncrement(LatestRead(run))
  {
    CountHistory(duration, run);
  }

  /** Whether `stop` has come since the check found the watchdog running, and `start` has not ended since. */
  predicate StopSinceGuard(run: seq<Access>) {
    run != [] && !run[|run|-1].ReadMax? && !run[|run|-1].StartMax? && (run[|run|-1].Stop? || StopSinceGuard(run[..|run|-1]))
  }

  /** In the middle of a check the maximum is zero exactly if a `stop` has come there. */
  lemma {:induction false} StoppedExactly(duration: nat, run: seq<Access>)
    requires Run(duration, run).Some? && duration > 0
    requires Run(duration, run).value.check.Guarded? || Run(duration, run).value.check.Counted?
    ensures Run(duration, run).value.max == 0 <==> StopSinceGuard(run)
  {
    if !run[|run|-1].ReadMax? {
      StoppedExactly(duration, run[..|run|-1]);
    }
  }

  /** Both together: when a `stop` in the middle of a check makes it kill. */
  lemma StopKillsExactly(duration: nat, run: seq<Access>)
    requires Run(duration, run).Some? && Run(duration, run).value.check.Counted? && duration > 0 && StopSinceGuard(run)
    ensures Kills(Run(duration, run).value) <==> !ResetSinceIncrement(LatestRead(run))
  {
    StoppedExactly(duration, run);
    StoppedKillsExactly(duration, run);
  }

  lemma Extend(duration: nat, run: seq<Access>, a: Access) returns (longer: seq<Access>)
    requires Run(duration, run).Some?
    ensures longer == run + [a] && Run(duration, longer) == Next(duration, Run(duration, run).value, a)
  {
    longer := run + [a];
    assert longer[..|run|] == run;
  }

  /** A watchdog is started and the checking thread wakes. */
  lemma Started(duration: nat, sleep: Sleep) returns (run: seq<Access>)
    ensures run == [StartCount, StartMax, Elapse(sleep)]
    ensures var (ticks, extra) := Tick(0, sleep);
            Run(duration, run) == Option.Some(INITIAL.(max := Epochs(duration), clock := Clock(sleep, extra), check := Woken(ticks)))
  {
    run := [];
    assert Run(duration, run) == Option.Some(INITIAL);
    hide Run, Tick, Epochs;
    run := Extend(duration, run, StartCount);
    run := Extend(duration, run, StartMax);
    run := Extend(duration, run, Elapse(sleep));
  }

  /**
   The time is counted from the check before `ok`, not from `ok` itself: a sleep that was over
   before `ok` but is counted after it can kill at once.
   */
  lemma KillRightAfterOk()
    ensures var run := [StartCount, StartMax, Elapse(150), Ok, Increment, ReadMax, ReadCount];
            Run(EPOCH, run).Some? && Kills(Run(EPOCH, run).value)
  {
    var run := Started(EPOCH, 150);
    hide Run;
    run := Extend(EPOCH, run, Ok);
    run := Extend(EPOCH, run, Increment);
    run := Extend(EPOCH, run, ReadMax);
    run := Extend(EPOCH, run, ReadCount);
    assert run == [StartCount, StartMax, Elapse(150), Ok, Increment, ReadMax, ReadCount];
  }

  lemma LateOk(run: seq<Access>)
    requires run != [] && run[|run|-1].Ok?
    ensures ResetSinceRead(run)
  {
  }

  /** `ok` between the read of the count and the comparison comes too late for that check. */
  lemma KillInSpiteOfOk()
    ensures var run := [StartCount, StartMax, Elapse(150), Increment, ReadMax, ReadCount, Ok];
            Run(EPOCH, run).Some? && Kills(Run(EPOCH, run).value) && Run(EPOCH, run).value.max != 0
            && LastCheck(run) < CheckBeforeReset(run) + EPOCH
  {
    var run := Started(EPOCH, 150);
    hide Run, LastCheck, CheckBeforeReset;
    run := Extend(EPOCH, run, Increment);
    run := Extend(EPOCH, run, ReadMax);
    run := Extend(EPOCH, run, ReadCount);
    run := Extend(EPOCH, run, Ok);
    assert run == [StartCount, StartMax, Elapse(150), Increment, ReadMax, ReadCount, Ok];
    LateOk(run);
    KillIsLateExactly(EPOCH, run);
  }

  /** So `stop` between the reads of a check can make it kill however long the duration is: the maximum is read again. */
  lemma KillDuringStop(duration: nat)
    requires duration > 0
    ensures var run := [StartCount, StartMax, Elapse(EPOCH), Increment, ReadMax, ReadCount, Stop];
            Run(duration, run).Some? && Kills(Run(duration, run).value)
  {
    var run := Started(duration, EPOCH);
    hide Run;
    EpochsRoundUp(duration);
    run := Extend(duration, run, Increment);
    run := Extend(duration, run, ReadMax);
    run := Extend(duration, run, ReadCount);
    run := Extend(duration, run, Stop);
    assert run == [StartCount, StartMax, Elapse(EPOCH), Increment, ReadMax, ReadCount, Stop];
  }
}
