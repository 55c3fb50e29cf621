/**
 A clock valuation ("Delta") for timed-automata-style evaluation: a finite map
 from clock name to the time elapsed since that clock was last reset, with a
 distinguished "global" clock that measures absolute time and serves as the
 birth value of any clock read before it was ever reset.

 Times are integer ticks of 10^-8 time units. Only the time step of
 `z3_interface.py` rounds, to 8 decimal places; the start value is an `int`,
 reset stores 0 and a lazy read copies "global", so every stored time is a
 whole number of ticks as long as each step is, and that rounding is exact.

 The Python code mutates a dictionary in place and returns it; here every
 operation returns a new map and leaves its argument untouched.
 */
module ClockValuation {

  /** Name of a clock. */
  type Clock = string

  /** Elapsed time, in ticks of 10^-8 time units. */
  type Ticks = int

  /** The clock valuation: clock name to elapsed ticks. */
  type Delta = map<Clock, Ticks>

  /** The clock that measures absolute time and seeds lazily created clocks. */
  const Global: Clock := "global"

  /** The invariant every operation that reads "global" relies on. */
  predicate HasGlobal(d: Delta) {
    Global in d
  }

  /** Every clock holds a non-negative time. */
  predicate NonNegative(d: Delta) {
    forall c :: c in d ==> d[c] >= 0
  }

  /** A fresh valuation holding only the global clock, set to `init`. */
  function NewDelta(init: Ticks): (d: Delta)
    ensures d.Keys == {Global}
    ensures d[Global] == init
    ensures HasGlobal(d)
  {
    map[Global := init]
  }

  /**
   Reads `clock`. A clock not yet in the valuation is first added with the
   current value of the global clock. Returns the (possibly extended)
   valuation and the value read.
   */
  function GetClockValue(d: Delta, clock: Clock): (r: (Delta, Ticks))
    requires HasGlobal(d)
    ensures clock in d ==> r.0 == d && r.1 == d[clock]
    ensures clock !in d ==> r.0 == d[clock := d[Global]] && r.1 == d[Global]
    ensures r.0.Keys == d.Keys + {clock}
    ensures clock in r.0 && r.1 == r.0[clock]
    ensures HasGlobal(r.0) && r.0[Global] == d[Global]
  {
    var d' := if clock in d then d else d[clock := d[Global]];
    (d', d'[clock])
  }

  /** Sets `clock` to zero, adding it if absent. Nothing stops `clock` being the global clock. */
  function ResetClock(d: Delta, clock: Clock): (r: Delta)
    ensures r.Keys == d.Keys + {clock}
    ensures r[clock] == 0
    ensures forall c :: c in d && c != clock ==> r[c] == d[c]
  {
    d[clock := 0]
  }

  /**
   Resets every clock of `clocks`, one after another in list order. The
   global clock must be present and must not be among the clocks reset.
   */
  function ResetClocks(d: Delta, clocks: seq<Clock>): (r: Delta)
    requires HasGlobal(d)
    requires Global !in clocks
    ensures r.Keys == d.Keys + (set c | c in clocks)
    ensures forall c :: c in clocks ==> r[c] == 0
    ensures forall c :: c in d && c !in clocks ==> r[c] == d[c]
    ensures HasGlobal(r) && r[Global] == d[Global]
    decreases |clocks|
  {
    if |clocks| == 0 then d
    else ResetClocks(ResetClock(d, clocks[0]), clocks[1..])
  }

  /**
   Reference definition of a bulk reset by the set of names alone: every
   named clock is zero, every other clock is as before.
   */
  function ResetSet(d: Delta, names: set<Clock>): (r: Delta)
    ensures r.Keys == d.Keys + names
  {
    map c | c in d.Keys + names :: if c in names then 0 else d[c]
  }

  /**
   Reference definition of a time step: every tracked clock, the global
   one included, advances by `step` ticks. No clock is added or removed.
   */
  function TimeStep(d: Delta, step: Ticks): (r: Delta)
    ensures r.Keys == d.Keys
    ensures HasGlobal(d) ==> HasGlobal(r) && r[Global] == d[Global] + step
  {
    map c | c in d :: d[c] + step
  }

  /**
   A time step computed as `z3_interface.py` does: one pass over the clocks,
   updating each in turn.
   */
  method TimeStepLoop(d: Delta, step: Ticks) returns (r: Delta)
    ensures r.Keys == d.Keys
    ensures forall c :: c in d ==> r[c] == d[c] + step
    ensures r == TimeStep(d, step)
  {
    r := d;
    var todo := d.Keys;
    while todo != {}
      invariant todo <= d.Keys
      invariant r.Keys == d.Keys
      invariant forall c :: c in d ==> r[c] == if c in todo then d[c] else d[c] + step
      decreases todo
    {
      var c :| c in todo;
      r := r[c := r[c] + step];
      todo := todo - {c};
    }
  }
}
