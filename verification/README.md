# Clock valuation of the timeout-protocol tooling

This project models the clock valuation ("Delta") kept by
`src/toast/z3_interface.py`. A valuation maps clock names to the time elapsed
since each clock was last reset. The distinguished clock `"global"` measures
absolute time, and a clock that is read before it was ever reset is born
with the current value of `"global"`. Five operations act on it:

- `new_delta` creates a valuation that holds only `"global"`;
- `get_clock_value` reads a clock, creating it lazily;
- `reset_clock` zeroes one clock;
- `reset_clocks` zeroes a list of clocks;
- `time_step` advances every tracked clock.

Times are integer ticks of 10^-8 time units. Only `time_step` rounds: it
stores `round(v + Step, CONST_DECIMAL_PRECISION)` with a precision of 8
decimal places (z3_interface.py:58, :105). `new_delta` stores `Init`, which
is typed `int`; `reset_clock` stores the integer 0; `get_clock_value` copies
the value of `"global"`. So every stored time is a whole number of ticks as
long as each step is, and on whole ticks the rounding is exact:
`round(v + Step, 8)` becomes `v + step`.

The source's `assert` statements become `requires` clauses. They are
contract violations that abort the caller, not errors the code handles. The
source mutates the dictionary in place and returns it. Here every operation
is a pure function that returns a new map.

Files:

- `clock_valuation.dfy` (module `ClockValuation`): the valuation type, the
  `"global"` clock and the five operations. It also holds two reference
  definitions: `ResetSet` (a bulk reset defined by the
  set of names) and `TimeStep` (a time step as a map comprehension). A third
  member, `TimeStepLoop`, is the per-clock update loop the source runs.
- `clock_lemmas.dfy` (module `ClockLemmas`): the properties that relate the
  operations. These are idempotence, order independence of bulk resets,
  composition and inversion of time steps, reads (lazy creation included)
  commuting with time passing, and the invariant that no clock is ahead of `"global"`.
- `clock_script.dfy` (module `ClockScript`): a caller's chain of calls on
  one valuation. It models the assertion failures as an outcome and proves
  the invariant over any well-behaved chain. It also replays the session
  sketched in the source's commented-out code.

In three places the code is looser than one might expect, and the model
follows the code:

- `reset_clock` (z3_interface.py:94-96) has no guard against resetting
  `"global"`, although the comment above the reset functions reads `reset
  value of clock in Delta, except "global"` (z3_interface.py:86).
  `ResetClock` accepts `"global"`. Only `reset_clocks` asserts that
  `"global"` is not listed (z3_interface.py:89).
- `reset_clocks` takes a list, not a set. `ResetClocks` takes a sequence.
  `ResetClocksIsResetSet` and `ResetClocksOrderIrrelevant` prove that only
  the set of names matters.
- Nothing in the code keeps times non-negative: `new_delta` and
  `time_step` accept any number. The model allows any integer.
  `OperationsKeepNonNegative` and the `GlobalIsLatest` lemmas state what
  holds when the start value and the steps are non-negative.

## Model

| member | source | states |
|---|---|---|
| ClockValuation.NewDelta | src/toast/z3_interface.py:99-100 | the new valuation's only key is `"global"`, and it maps to the start value |
| ClockValuation.GetClockValue | src/toast/z3_interface.py:81-84 | requires `"global"`; a present clock leaves the map unchanged and returns its value; an absent clock is added with the value of `"global"`, and that value is returned; the value returned is always the result map's entry; keys grow by exactly the clock read; `"global"` is kept |
| ClockValuation.ResetClock | src/toast/z3_interface.py:94-96 | the clock maps to 0; keys become the old keys plus the clock; every other entry is unchanged; `"global"` is not guarded |
| ClockValuation.ResetClocks | src/toast/z3_interface.py:87-92 | requires `"global"` present and not listed; every listed clock maps to 0; every unlisted key keeps its value, `"global"` included; keys become the old keys plus the listed names |
| ClockValuation.TimeStep | src/toast/z3_interface.py:103-106 | a time step keeps the key set, so `"global"` stays present, and `"global"` advances by the step |
| ClockValuation.TimeStepLoop | src/toast/z3_interface.py:103-106 | the source's update loop over the clocks keeps the key set, adds the step to every entry, and equals the reference `TimeStep` |
| ClockLemmas.GetClockValueIdempotent | src/toast/z3_interface.py:83-84 | a second read of the same clock returns the same map and the same value |
| ClockLemmas.ReadAfterReset | src/toast/z3_interface.py:81-96 | a clock read right after its reset reads 0 and adds no key |
| ClockLemmas.ResetClocksIsResetSet | src/toast/z3_interface.py:87-92 | the sequential bulk reset equals the reset defined by the set of listed names |
| ClockLemmas.ResetClocksOrderIrrelevant | src/toast/z3_interface.py:90-91 | two lists with the same names, in any order and with any repeats, give the same valuation |
| ClockLemmas.ResetClocksAppend | src/toast/z3_interface.py:90-91 | resetting a concatenation is resetting the first list, then the second |
| ClockLemmas.ResetClocksSingle | src/toast/z3_interface.py:87-96 | a bulk reset of one non-global clock is a single reset |
| ClockLemmas.TimeStepCompose | src/toast/z3_interface.py:103-106 | two steps equal one step by their sum |
| ClockLemmas.TimeStepInverse | src/toast/z3_interface.py:103-106 | a zero step is the identity, and a step is undone by its negation |
| ClockLemmas.TimeStepPreservesDifferences | src/toast/z3_interface.py:103-106 | a step keeps the difference between any two clocks |
| ClockLemmas.ReadCommutesWithTimeStep | src/toast/z3_interface.py:80-84 | reading any clock after a step gives the valuation of reading it before the step and then stepping, and a value larger by the step; in particular a new clock first read after a step holds what it would have held had it been created before the step |
| ClockLemmas.NewDeltaGlobalIsLatest | src/toast/z3_interface.py:99-100 | a fresh valuation with a non-negative start has no clock ahead of `"global"` |
| ClockLemmas.GetClockValueKeepsGlobalIsLatest | src/toast/z3_interface.py:81-84 | a read keeps every clock at or below `"global"`, and the value read is at most `"global"` |
| ClockLemmas.ResetClockKeepsGlobalIsLatest | src/toast/z3_interface.py:94-96 | resetting a non-global clock keeps every clock at or below `"global"` |
| ClockLemmas.ResetClocksKeepsGlobalIsLatest | src/toast/z3_interface.py:87-92 | a bulk reset keeps every clock at or below `"global"` |
| ClockLemmas.TimeStepKeepsGlobalIsLatest | src/toast/z3_interface.py:103-106 | a non-negative step keeps every clock at or below `"global"` |
| ClockLemmas.OperationsKeepNonNegative | src/toast/z3_interface.py:81-106 | reads, resets and non-negative steps keep every clock non-negative |
| ClockScript.Apply | src/toast/z3_interface.py:81-106 | a call fails its assertion exactly when it is a read or bulk reset without `"global"`, or a bulk reset that lists `"global"`; a successful call keeps `"global"` |
| ClockScript.WellBehavedRunKeepsGlobalIsLatest | src/toast/z3_interface.py:81-106 | any chain of forward steps, reads and non-global resets from a valuation with no clock ahead of `"global"` completes without assertion failure and keeps that invariant |
| ClockScript.CommentedSession | src/toast/z3_interface.py:109-131 | for any start and steps, the commented session reads `x` as start plus the first step; after the reset of `x`, `x` holds only the later steps; `y` holds only the last step |
| ClockScript.CommentedSessionValues | src/toast/z3_interface.py:109-131 | with the steps 4.2 and 1.2: `x` reads 4.2; after the reset of `x` and one step, `x` is 1.2 and `"global"` is 6.6; finally `y` is 1.2, `x` 2.4 and `"global"` 7.8 |

## Left out

- `ask_z3` (src/toast/z3_interface.py:152-160) is left out. It decodes caller-supplied bytes and runs them with `exec` against the Z3 library, then compares the result with Z3's `sat`. That is dynamic code execution and a foreign solver, so there is no logic here to state in Dafny.
- `is_t_reading` (src/toast/z3_interface.py:76-78) is left out. It is an unfinished stub that calls Z3's `solve([])` and returns nothing.
- `test` (src/toast/z3_interface.py:136-139) is left out. It only prints its argument for the Erlang interop and returns a constant string.
- The commented-out Z3 experiments are left out. They are not live code, and they depend on the external solver.
- ClockValuation.TimeStep: the model uses a step in whole ticks. It does not model Python floats: a step finer than 10^-8, the binary representation error of floats, or `round`'s behaviour on values that are not whole ticks.
- ClockValuation.NewDelta: the default argument `Init=0` of `new_delta` is not a separate member. `new_delta()` is `NewDelta(0)`.
- In-place mutation and aliasing of the dictionary are not modelled: each operation returns a new map and leaves its argument as it was. In the Python code a caller that keeps the dictionary it passed in sees the change there too; every call in the file reassigns the returned dictionary (z3_interface.py:91, :109-131), so for those calls the two agree.
