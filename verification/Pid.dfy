/**
 The clamped controller blocks.  Arithmetic is over the reals; times are in microseconds and
 are given to the calls.
 */
module Pid {
  /** The settings of a block; `delay` is the shortest time between two steps. */
  datatype Gains = Gains(p: real, i: real, d: real, k: real, min: real, max: real, delay: int)

  predicate InRange(g: Gains, x: real) {
    g.min <= x <= g.max
  }

  function Sum(errors: seq<real>): real {
    if errors == [] then 0.0 else Sum(errors[..|errors|-1]) + errors[|errors|-1]
  }

  function Clamp(g: Gains, x: real): (r: real)
    requires g.min <= g.max
    ensures InRange(g, r) && (InRange(g, x) ==> r == x)
  {
    if x > g.max then g.max else if x < g.min then g.min else x
  }

  /** The weighted sum of the proportional, integral and difference terms, and the centre. */
  function Terms(g: Gains, err: real, integral: real, errDelta: real): real {
    g.p * err + g.i * integral + g.d * errDelta + g.k
  }

  /**
   The control law in closed form, over the errors since the last reset: the integral leaves
   out the newest of them, and before the first one the output is the centre.
   */
  function Output(g: Gains, errors: seq<real>): (r: real)
    requires g.min <= g.max
    ensures InRange(g, g.k) || errors != [] ==> InRange(g, r)
  {
    if errors == [] then g.k
    else
      var n := |errors| - 1;
      var previous := if n == 0 then 0.0 else errors[n-1];
      Clamp(g, Terms(g, errors[n], Sum(errors[..n]), errors[n] - previous))
  }

  /** Strictly between the clamps. */
  predicate Inside(g: Gains, x: real) {
    g.min < x < g.max
  }

  lemma OutputIsClamped(g: Gains, errors: seq<real>, err: real, before: real)
    requires g.min <= g.max && before == if errors == [] then 0.0 else errors[|errors|-1]
    ensures Output(g, errors + [err]) == Clamp(g, Terms(g, err, Sum(errors), err - before))
  {
    hide Terms, Clamp, Sum;
    assert (errors + [err])[..|errors|] == errors;
  }

  /**
   An output above the lower clamp is no more than the law gives, and one below the upper clamp
   no less: inside they are equal, and at a clamp the law lies at or beyond it.
   */
  lemma OutputIsLaw(g: Gains, errors: seq<real>, err: real, before: real)
    requires g.min <= g.max && before == if errors == [] then 0.0 else errors[|errors|-1]
    ensures var out := Output(g, errors + [err]);
            var law := g.p * err + g.i * Sum(errors) + g.d * (err - before) + g.k;
            (out > g.min ==> out <= law) && (out < g.max ==> out >= law)
  {
    hide Output, Sum;
    OutputIsClamped(g, errors, err, before);
  }

  /** The first output after a reset answers the error with the proportional and the derivative gain. */
  lemma FirstOutput(g: Gains, e: real)
    requires g.min <= g.max && Inside(g, Output(g, [e]))
    ensures Output(g, [e]) - g.k == (g.p + g.d) * e
  {
    OutputIsLaw(g, [], e, 0.0);
    assert [] + [e] == [e] && Sum([]) == 0.0;
  }

  lemma Differ(a: real, x: real, y: real)
    ensures a * (x - y) == a * x - a * y
  {
  }

  /** What a second step adds. */
  lemma SecondOutput(g: Gains, e1: real, e: real)
    requires g.min <= g.max && Inside(g, Output(g, [e1])) && Inside(g, Output(g, [e1, e]))
    ensures Output(g, [e1, e]) - Output(g, [e1]) == g.p * (e - e1) + g.i * e1 + g.d * (e - 2.0 * e1)
  {
    FirstOutput(g, e1);
    OutputIsLaw(g, [e1], e, e1);
    assert [e1] + [e] == [e1, e] && [e1][..0] == [] && Sum([e1]) == e1;
    Differ(g.p, e, e1);
    Differ(g.d, e - e1, e1);
  }

  /** What every later step adds: the three gains weigh the difference of the errors, the last error but one, and the second difference. */
  lemma LaterOutput(g: Gains, errors: seq<real>, e2: real, e1: real, e: real)
    requires g.min <= g.max
    requires Inside(g, Output(g, errors + [e2] + [e1])) && Inside(g, Output(g, errors + [e2] + [e1] + [e]))
    ensures Output(g, errors + [e2] + [e1] + [e]) - Output(g, errors + [e2] + [e1])
              == g.p * (e - e1) + g.i * e1 + g.d * (e - 2.0 * e1 + e2)
  {
    var older := errors + [e2];
    OutputIsLaw(g, older, e1, e2);
    OutputIsLaw(g, older + [e1], e, e1);
    assert (older + [e1])[..|older|] == older;
    hide Output;
    Differ(g.p, e, e1);
    Differ(g.i, Sum(older + [e1]), Sum(older));
    Differ(g.d, e - e1, e1 - e2);
  }

  /** A constant error makes the output grow by the integral gain. */
  lemma ConstantError(g: Gains, errors: seq<real>, e: real)
    requires g.min <= g.max
    requires Inside(g, Output(g, errors + [e] + [e])) && Inside(g, Output(g, errors + [e] + [e] + [e]))
    ensures Output(g, errors + [e] + [e] + [e]) - Output(g, errors + [e] + [e]) == g.i * e
  {
    LaterOutput(g, errors, e, e, e);
  }

  /** The errors recorded after a step at time `now`: one that comes too early is dropped. */
  ghost function Recorded(g: Gains, errors: seq<real>, lastTime: int, err: real, now: int): seq<real> {
    if now - lastTime < g.delay then errors else errors + [err]
  }

  /** A step is recorded exactly if the delay has passed since the last one that was. */
  lemma RecordedExactly(g: Gains, errors: seq<real>, lastTime: int, err: real, now: int)
    ensures Recorded(g, errors, lastTime, err, now) == errors + [err] <==> now >= lastTime + g.delay
  {
    assert |errors + [err]| != |errors|;
  }

  class PID {
    const g: Gains
    /** Tells the blocks of one controller apart. */
    ghost const role: nat
    var integral: real
    var lastTime: int
    var lastErr: real
    var lastOut: real
    /** The errors of the steps taken since the last reset. */
    ghost var errors: seq<real>

    constructor (g: Gains, now: int, ghost role: nat)
      requires g.min <= g.max
      ensures this.g == g && this.role == role && Valid() && errors == [] && lastTime == now
    {
      this.g, this.role := g, role;
      lastErr, lastTime, integral, lastOut, errors := 0.0, now, 0.0, g.k, [];
    }

    ghost predicate Valid()
      reads this
    {
      && g.min <= g.max
      && integral == Sum(errors)
      && lastErr == (if errors == [] then 0.0 else errors[|errors|-1])
      && lastOut == Output(g, errors)
    }

    /** `step`: within the delay the last output is held, and the error is not recorded. */
    method Step(err: real, now: int) returns (out: real)
      requires Valid()
      modifies this
      ensures Valid() && out == lastOut == Output(g, errors)
      ensures errors == Recorded(g, old(errors), old(lastTime), err, now)
      ensures lastTime == if now - old(lastTime) < g.delay then old(lastTime) else now
    {
      if now - lastTime < g.delay {
        return lastOut;
      }
      var errDelta := err - lastErr;
      var all := g.p * err + g.i * integral + g.d * errDelta + g.k;
      assert all == Terms(g, err, integral, errDelta);
      hide Terms;
      integral := integral + err;
      lastTime := now;
      lastErr := err;
      all := if all > g.max then g.max else all;
      all := if all < g.min then g.min else all;
      lastOut := all;
      errors := errors + [err];
      assert errors[..|errors|-1] == old(errors);
      return all;
    }

    method Reset(now: int)
      requires g.min <= g.max
      modifies this
      ensures Valid() && errors == [] && lastTime == now
    {
      lastErr, lastTime, integral, lastOut, errors := 0.0, now, 0.0, g.k, [];
    }
  }
}
