/**
 Properties relating the clock-valuation operations to each other and to
 their reference definitions.
 */
module ClockLemmas {
  import opened ClockValuation

  /** Reading a clock twice gives the same valuation and the same value as reading it once. */
  lemma GetClockValueIdempotent(d: Delta, clock: Clock)
    requires HasGlobal(d)
    ensures var (d1, v1) := GetClockValue(d, clock);
            GetClockValue(d1, clock) == (d1, v1)
  {
  }

  /** A clock read straight after it was reset reads zero, and the read adds nothing. */
  lemma ReadAfterReset(d: Delta, clock: Clock)
    requires HasGlobal(d)
    ensures HasGlobal(ResetClock(d, clock))
    ensures GetClockValue(ResetClock(d, clock), clock) == (ResetClock(d, clock), 0)
  {
  }

  /**
   A bulk reset is the reset by the set of listed names: the list order and
   any repetition in it are irrelevant.
   */
  lemma ResetClocksIsResetSet(d: Delta, clocks: seq<Clock>)
    requires HasGlobal(d)
    requires Global !in clocks
    ensures ResetClocks(d, clocks) == ResetSet(d, set c | c in clocks)
  {
  }

  /** Two lists naming the same clocks reset the valuation identically. */
  lemma ResetClocksOrderIrrelevant(d: Delta, clocks1: seq<Clock>, clocks2: seq<Clock>)
    requires HasGlobal(d)
    requires Global !in clocks1
    requires (set c | c in clocks1) == (set c | c in clocks2)
    ensures Global !in clocks2
    ensures ResetClocks(d, clocks1) == ResetClocks(d, clocks2)
  {
    assert Global !in (set c | c in clocks1);
    ResetClocksIsResetSet(d, clocks1);
    ResetClocksIsResetSet(d, clocks2);
  }

  /** Resetting a concatenation of lists is resetting the first list, then the second. */
  lemma {:induction false} ResetClocksAppend(d: Delta, first: seq<Clock>, second: seq<Clock>)
    requires HasGlobal(d)
    requires Global !in first && Global !in second
    ensures Global !in first + second
    ensures ResetClocks(d, first + second) == ResetClocks(ResetClocks(d, first), second)
    decreases |first|
  {
    if |first| > 0 {
      assert (first + second)[1..] == first[1..] + second;
      ResetClocksAppend(ResetClock(d, first[0]), first[1..], second);
    } else {
      assert first + second == second;
    }
  }

  /** A bulk reset of one clock is a single reset. */
  lemma ResetClocksSingle(d: Delta, clock: Clock)
    requires HasGlobal(d)
    requires clock != Global
    ensures ResetClocks(d, [clock]) == ResetClock(d, clock)
  {
  }

  /** Two consecutive time steps are one step by their sum. */
  lemma TimeStepCompose(d: Delta, a: Ticks, b: Ticks)
    ensures TimeStep(TimeStep(d, a), b) == TimeStep(d, a + b)
  {
  }

  /** A step by zero changes nothing, and a step is undone by the opposite step. */
  lemma TimeStepInverse(d: Delta, step: Ticks)
    ensures TimeStep(d, 0) == d
    ensures TimeStep(TimeStep(d, step), -step) == d
  {
  }

  /** A time step keeps the difference between any two clocks. */
  lemma TimeStepPreservesDifferences(d: Delta, step: Ticks, c1: Clock, c2: Clock)
    requires c1 in d && c2 in d
    ensures TimeStep(d, step)[c1] - TimeStep(d, step)[c2] == d[c1] - d[c2]
  {
  }

  /**
   Reading a clock commutes with time passing. For a clock not yet present
   this says lazy creation is consistent: a clock first read after a step
   holds what it would hold had it been read before the step, namely the
   global clock's value.
   */
  lemma ReadCommutesWithTimeStep(d: Delta, clock: Clock, step: Ticks)
    requires HasGlobal(d)
    ensures HasGlobal(TimeStep(d, step))
    ensures GetClockValue(TimeStep(d, step), clock).0 == TimeStep(GetClockValue(d, clock).0, step)
    ensures GetClockValue(TimeStep(d, step), clock).1 == GetClockValue(d, clock).1 + step
  {
  }

  /** No clock has run for longer than the global clock, which never runs backwards past zero. */
  predicate GlobalIsLatest(d: Delta) {
    && HasGlobal(d)
    && d[Global] >= 0
    && forall c :: c in d ==> d[c] <= d[Global]
  }

  lemma NewDeltaGlobalIsLatest(init: Ticks)
    requires init >= 0
    ensures GlobalIsLatest(NewDelta(init))
  {
  }

  lemma GetClockValueKeepsGlobalIsLatest(d: Delta, clock: Clock)
    requires GlobalIsLatest(d)
    ensures GlobalIsLatest(GetClockValue(d, clock).0)
    ensures GetClockValue(d, clock).1 <= d[Global]
  {
  }

  lemma ResetClockKeepsGlobalIsLatest(d: Delta, clock: Clock)
    requires GlobalIsLatest(d)
    requires clock != Global
    ensures GlobalIsLatest(ResetClock(d, clock))
  {
  }

  lemma ResetClocksKeepsGlobalIsLatest(d: Delta, clocks: seq<Clock>)
    requires GlobalIsLatest(d)
    requires Global !in clocks
    ensures GlobalIsLatest(ResetClocks(d, clocks))
  {
  }

  lemma TimeStepKeepsGlobalIsLatest(d: Delta, step: Ticks)
    requires GlobalIsLatest(d)
    requires step >= 0
    ensures GlobalIsLatest(TimeStep(d, step))
  {
  }

  /** Forward steps, reads and resets keep every clock non-negative. */
  lemma OperationsKeepNonNegative(d: Delta, clock: Clock, clocks: seq<Clock>, step: Ticks)
    requires HasGlobal(d) && NonNegative(d)
    requires Global !in clocks
    requires step >= 0
    ensures NonNegative(GetClockValue(d, clock).0)
    ensures NonNegative(ResetClock(d, clock))
    ensures NonNegative(ResetClocks(d, clocks))
    ensures NonNegative(TimeStep(d, step))
  {
  }
}
