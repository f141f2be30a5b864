/**
 `Watchdog`: a thread wakes about every 50 ms, turns the time that has passed into ticks, adds
 them to the count of every watchdog and kills the program when a count exceeds its maximum.
 Times are in milliseconds, truncated as in the source.
 */
module Watchdog {
  const EPOCH := 50

  /** What one sleep lasts: never less than was asked for, and short enough for the cast to `int`. */
  type Sleep = d: int | EPOCH <= d <= EPOCH * 0x7FFF_FFFF witness EPOCH

  /** The time that has passed, and the part of it that has not become a tick. */
  datatype Clock = Clock(total: nat, extra: nat)

  /** The ticks of a sleep, and the time carried over to the next one. */
  function Tick(extra: nat, sleep: Sleep): (r: (nat, nat))
    requires extra <= EPOCH
    ensures EPOCH * r.0 + r.1 == sleep + extra
    ensures r.0 >= 1 && r.1 <= EPOCH && (r.1 == EPOCH <==> extra + sleep == 2 * EPOCH)
  {
    var late := extra + sleep - EPOCH;
    if late > EPOCH then
      var numOver := late / EPOCH;
      (1 + numOver, late - numOver * EPOCH)
    else
      (1, late)
  }

  function Sum(sleeps: seq<Sleep>): nat {
    if sleeps == [] then 0 else Sum(sleeps[..|sleeps|-1]) + sleeps[|sleeps|-1]
  }

  /** What `start` stores: the duration in epochs, rounded up. */
  function Epochs(duration: nat): nat {
    (duration + EPOCH - 1) / EPOCH
  }

  lemma EpochsRoundUp(duration: nat)
    ensures EPOCH * (Epochs(duration) - 1) < duration <= EPOCH * Epochs(duration)
  {
  }

  /** Whether a check kills. */
  predicate Late(count: nat, max: nat) {
    max != 0 && count > max
  }

  class Watchdogs {
    const counts: array<nat>
    const maxes: array<nat>
    var extra: nat

    constructor (n: nat)
      ensures Valid() && extra == 0 && counts.Length == n && fresh(counts) && fresh(maxes)
      ensures forall i :: 0 <= i < n ==> counts[i] == maxes[i] == 0
    {
      counts, maxes := new nat[n](_ => 0), new nat[n](_ => 0);
      extra := 0;
    }

    ghost predicate Valid()
      reads this
    {
      counts != maxes && counts.Length == maxes.Length && extra <= EPOCH
    }

    /** One round of `check_thread`; `killing` are the watchdogs it kills for. */
    method Check(sleep: Sleep) returns (killing: seq<nat>)
      requires Valid()
      modifies `extra, counts
      ensures Valid()
      ensures extra == Tick(old(extra), sleep).1
      ensures forall i :: 0 <= i < counts.Length ==> counts[i] == old(counts[i]) + Tick(old(extra), sleep).0
      ensures forall i: nat :: i in killing <==> i < counts.Length && Late(counts[i], maxes[i])
    {
      extra := extra + sleep - EPOCH;
      var addCount := 1;
      if extra > EPOCH {
        var numOver := extra / EPOCH;
        addCount := addCount + numOver;
        extra := extra - numOver * EPOCH;
      }
      assert (addCount, extra) == Tick(old(extra), sleep);
      for i := 0 to counts.Length
        invariant Valid() && (addCount, extra) == Tick(old(extra), sleep)
        invariant forall j :: 0 <= j < counts.Length ==> counts[j] == old(counts[j]) + if j < i then addCount else 0
      {
        counts[i] := counts[i] + addCount;
      }
      killing := [];
      for i := 0 to counts.Length
        invariant forall j: nat :: j in killing <==> j < i && Late(counts[j], maxes[j])
      {
        if maxes[i] != 0 && counts[i] > maxes[i] {
          killing := killing + [i];
        }
      }
    }

    /** Rounds of `check_thread` without a call of the watchdogs: no time is lost or counted twice. */
    method CheckThread(sleeps: seq<Sleep>) returns (ticks: nat)
      requires Valid() && extra == 0
      modifies `extra, counts
      ensures Valid() && EPOCH * ticks + extra == Sum(sleeps)
      ensures forall i :: 0 <= i < counts.Length ==> counts[i] == old(counts[i]) + ticks
    {
      ticks := 0;
      for k := 0 to |sleeps|
        invariant Valid() && EPOCH * ticks + extra == Sum(sleeps[..k])
        invariant forall i :: 0 <= i < counts.Length ==> counts[i] == old(counts[i]) + ticks
      {
        assert sleeps[..k+1][..k] == sleeps[..k];
        ticks := ticks + Tick(extra, sleeps[k]).0;
        var killing := Check(sleeps[k]);
      }
      assert sleeps[..|sleeps|] == sleeps;
    }

    method Start(id: nat, duration: nat)
      requires Valid() && id < counts.Length
      modifies counts, maxes
      ensures counts[..] == old(counts[..])[id := 0] && maxes[..] == old(maxes[..])[id := Epochs(duration)]
    {
      counts[id] := 0;
      maxes[id] := (duration + EPOCH - 1) / EPOCH;
    }

    method Ok(id: nat)
      requires Valid() && id < counts.Length
      modifies counts
      ensures counts[..] == old(counts[..])[id := 0]
    {
      counts[id] := 0;
    }

    method Stop(id: nat)
      requires Valid() && id < counts.Length
      modifies maxes
      ensures maxes[..] == old(maxes[..])[id := 0]
    {
      maxes[id] := 0;
    }
  }
}
