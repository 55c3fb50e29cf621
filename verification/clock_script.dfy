/**
 A caller's script of clock operations, threaded through one valuation the
 way the calling workflow chains the store from call to call. A call whose
 assertion fails aborts the whole script.
 */
module ClockScript {
  import opened ClockValuation
  import opened ClockLemmas

  /** One call on the valuation. */
  datatype Op =
    | Advance(step: Ticks)
    | Read(clock: Clock)
    | ResetOne(clock: Clock)
    | ResetMany(clocks: seq<Clock>)

  /** The end of a script: the final valuation, or the assertion failure that stopped it. */
  datatype Outcome = Done(delta: Delta) | AssertionFailed

  /**
   Applies one call. A read or a bulk reset on a valuation without the
   global clock, or a bulk reset that lists the global clock, fails its
   assertion; every other call succeeds.
   */
  function Apply(d: Delta, op: Op): (o: Outcome)
    ensures o.AssertionFailed? <==>
              || (op.Read? && !HasGlobal(d))
              || (op.ResetMany? && (!HasGlobal(d) || Global in op.clocks))
    ensures o.Done? && HasGlobal(d) ==> HasGlobal(o.delta)
  {
    match op
    case Advance(step) => Done(TimeStep(d, step))
    case Read(clock) =>
      if HasGlobal(d) then Done(GetClockValue(d, clock).0) else AssertionFailed
    case ResetOne(clock) => Done(ResetClock(d, clock))
    case ResetMany(clocks) =>
      if HasGlobal(d) && Global !in clocks then Done(ResetClocks(d, clocks)) else AssertionFailed
  }

  /** Applies the calls in order, stopping at the first assertion failure. */
  function Run(d: Delta, ops: seq<Op>): Outcome
    decreases |ops|
  {
    if |ops| == 0 then Done(d)
    else
      match Apply(d, ops[0])
      case Done(d') => Run(d', ops[1..])
      case AssertionFailed => AssertionFailed
  }

  /** A call that moves time forward and never resets the global clock. */
  predicate WellBehaved(op: Op) {
    match op
    case Advance(step) => step >= 0
    case Read(_) => true
    case ResetOne(clock) => clock != Global
    case ResetMany(clocks) => Global !in clocks
  }

  /**
   A script of well-behaved calls, started from a valuation in which no clock
   is ahead of the global one (as a fresh valuation with a non-negative start
   is), never fails an assertion, and at its end still no clock is ahead of
   the global one.
   */
  lemma {:induction false} WellBehavedRunKeepsGlobalIsLatest(d: Delta, ops: seq<Op>)
    requires GlobalIsLatest(d)
    requires forall i :: 0 <= i < |ops| ==> WellBehaved(ops[i])
    ensures Run(d, ops).Done?
    ensures GlobalIsLatest(Run(d, ops).delta)
    decreases |ops|
  {
    if |ops| > 0 {
      var op := ops[0];
      assert WellBehaved(op);
      match op {
        case Advance(step) => TimeStepKeepsGlobalIsLatest(d, step);
        case Read(clock) => GetClockValueKeepsGlobalIsLatest(d, clock);
        case ResetOne(clock) => ResetClockKeepsGlobalIsLatest(d, clock);
        case ResetMany(clocks) => ResetClocksKeepsGlobalIsLatest(d, clocks);
      }
      var d' := Apply(d, op).delta;
      assert forall i :: 0 <= i < |ops[1..]| ==> WellBehaved(ops[1..][i]) by {
        forall i | 0 <= i < |ops[1..]|
          ensures WellBehaved(ops[1..][i])
        {
          assert ops[1..][i] == ops[i + 1];
        }
      }
      WellBehavedRunKeepsGlobalIsLatest(d', ops[1..]);
    }
  }

  /**
   The session sketched in the commented-out code of `z3_interface.py`, for any start
   value and steps: from a fresh valuation, advance by `a` and read "x";
   advance by `b`, reset "x", advance by `c`; reset "y", advance by `e`.
   Returns the value read for "x", the valuation after the advance by `c`,
   and the final valuation.
   */
  function CommentedSession(init: Ticks, a: Ticks, b: Ticks, c: Ticks, e: Ticks)
    : (r: (Ticks, Delta, Delta))
    ensures r.0 == init + a
    ensures r.1 == map[Global := init + a + b + c, "x" := c]
    ensures r.2 == map[Global := init + a + b + c + e, "x" := c + e, "y" := e]
  {
    var d1 := TimeStep(NewDelta(init), a);
    var read := GetClockValue(d1, "x");
    var d3 := TimeStep(read.0, b);
    var d5 := TimeStep(ResetClock(d3, "x"), c);
    var d7 := TimeStep(ResetClock(d5, "y"), e);
    (read.1, d5, d7)
  }

  /**
   The session with the numbers of that commented-out code, in ticks: start at 0, advance
   4.2, then 1.2 three times. "x" reads 4.2; after its reset and one more
   advance "x" is 1.2 and the global clock 6.6; "y", reset and advanced
   once, ends at 1.2.
   */
  lemma CommentedSessionValues()
    ensures CommentedSession(0, 420_000_000, 120_000_000, 120_000_000, 120_000_000)
         == (420_000_000,
             map[Global := 660_000_000, "x" := 120_000_000],
             map[Global := 780_000_000, "x" := 240_000_000, "y" := 120_000_000])
  {
  }
}
