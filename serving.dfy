/**
 What one call of the test-image frame server's control step does to the
 values it reads and writes, and what a run of consecutive calls does: the
 sample ceiling, the return code and the pacing of the loop. Time is an
 integer count of clock ticks; the clock readings are inputs.
 */
module Serving {

  /** Largest value of the `uint64_t` sample counter and ceiling. */
  const U64_MAX: nat := 0xFFFF_FFFF_FFFF_FFFF

  /** Return code of a step: keep serving. */
  const Continue: int := 0
  /** Return code of a step: the sample ceiling is reached. */
  const Finished: int := 1

  /**
   The state one step reads and writes: the shared frame's sample count, the
   ceiling on it, the frame period and the pacing reference time.
   */
  datatype ServerState = ServerState(count: nat, numSamples: nat, period: int, tick: int)

  /**
   The two clock readings of a step: the one that sizes the sleep, and the one
   taken after the sleep that becomes the new pacing reference.
   */
  datatype Readings = Readings(beforeSleep: int, afterSleep: int)

  datatype StepResult = StepResult(next: ServerState, code: int)
  datatype RunResult = RunResult(final: ServerState, codes: seq<int>)

  function Min(a: int, b: int): int { if a <= b then a else b }
  function Max(a: int, b: int): int { if a >= b then a else b }

  /** The duration handed to the sleep: the period less the time elapsed since the reference. */
  function SleepRequest(tick: int, period: int, now: int): int
  {
    period - (now - tick)
  }

  /** How long a sleep for `d` blocks at least: a duration that is not positive returns at once. */
  function Blocked(d: int): nat
  {
    if d > 0 then d else 0
  }

  /**
   One call of the control step. Below the ceiling the sample count advances by
   one (inside the wait/post bracket), the pacing reference becomes the time
   read after the sleep, and the step asks to continue; at or above the
   ceiling nothing changes and the step reports that it has finished.
   */
  function Step(s: ServerState, c: Readings): StepResult
  {
    if s.count < s.numSamples then
      StepResult(s.(count := s.count + 1, tick := c.afterSleep), Continue)
    else
      StepResult(s, Finished)
  }

  /** Consecutive calls of the step, one per pair of clock readings. */
  function Run(s: ServerState, cs: seq<Readings>): RunResult
    decreases |cs|
  {
    if cs == [] then RunResult(s, [])
    else
      var r := Step(s, cs[0]);
      var rest := Run(r.next, cs[1..]);
      RunResult(rest.final, [r.code] + rest.codes)
  }

  /**
   The `i`-th call of a run continues exactly when the count it started from,
   plus `i`, is still below the ceiling; the count climbs to the ceiling and
   stops there; the ceiling and the period never change.
   */
  lemma {:induction false} RunCodes(s: ServerState, cs: seq<Readings>)
    ensures |Run(s, cs).codes| == |cs|
    ensures forall i :: 0 <= i < |cs| ==>
      Run(s, cs).codes[i] == (if s.count + i < s.numSamples then Continue else Finished)
    ensures Run(s, cs).final.count ==
      (if s.count >= s.numSamples then s.count else Min(s.count + |cs|, s.numSamples))
    ensures Run(s, cs).final.numSamples == s.numSamples
    ensures Run(s, cs).final.period == s.period
    decreases |cs|
  {
    if cs != [] {
      var r := Step(s, cs[0]);
      var rest := Run(r.next, cs[1..]);
      RunCodes(r.next, cs[1..]);
      var codes := Run(s, cs).codes;
      assert codes == [r.code] + rest.codes;
      forall i | 0 <= i < |cs|
        ensures codes[i] == (if s.count + i < s.numSamples then Continue else Finished)
      {
        if i > 0 {
          assert codes[i] == rest.codes[i - 1];
        }
      }
    }
  }

  /**
   Starting from a fresh count, exactly `numSamples` calls continue, the call
   after them finishes, and the count then equals the ceiling.
   */
  lemma ServesExactly(s: ServerState, cs: seq<Readings>)
    requires s.count == 0
    requires |cs| == s.numSamples + 1
    ensures |Run(s, cs).codes| == |cs|
    ensures forall i :: 0 <= i < s.numSamples ==> Run(s, cs).codes[i] == Continue
    ensures Run(s, cs).codes[s.numSamples] == Finished
    ensures Run(s, cs).final.count == s.numSamples
  {
    RunCodes(s, cs);
  }

  /** Once the ceiling is reached every further call finishes and changes nothing. */
  lemma {:induction false} FinishedStaysFinished(s: ServerState, cs: seq<Readings>)
    requires s.count >= s.numSamples
    ensures Run(s, cs).final == s
    ensures forall i :: 0 <= i < |Run(s, cs).codes| ==> Run(s, cs).codes[i] == Finished
    decreases |cs|
  {
    if cs != [] {
      FinishedStaysFinished(s, cs[1..]);
    }
  }

  /** A count that starts within the ceiling stays within it after any number of calls. */
  lemma CountWithinCeiling(s: ServerState, cs: seq<Readings>)
    requires s.count <= s.numSamples
    ensures forall k :: 0 <= k <= |cs| ==> Run(s, cs[..k]).final.count <= s.numSamples
  {
    forall k | 0 <= k <= |cs|
      ensures Run(s, cs[..k]).final.count <= s.numSamples
    {
      RunCodes(s, cs[..k]);
    }
  }

  /**
   The readings of a real clock around a real sleep: time has not gone back
   since the reference, and the sleep blocked at least as long as asked.
   */
  predicate Paced(s: ServerState, c: Readings)
  {
    s.tick <= c.beforeSleep &&
    c.beforeSleep + Blocked(SleepRequest(s.tick, s.period, c.beforeSleep)) <= c.afterSleep
  }

  /** Every step of a run is paced by a real clock. */
  predicate PacedRun(s: ServerState, cs: seq<Readings>)
    decreases |cs|
  {
    cs == [] || (Paced(s, cs[0]) && PacedRun(Step(s, cs[0]).next, cs[1..]))
  }

  /**
   Pacing keeps the loop from serving faster than the period: after `k`
   serving calls the pacing reference is at least `k` periods past where it
   started.
   */
  lemma {:induction false} NeverFasterThanPeriod(s: ServerState, cs: seq<Readings>)
    requires PacedRun(s, cs)
    requires s.count + |cs| <= s.numSamples
    ensures Run(s, cs).final.tick >= s.tick + |cs| * s.period
    decreases |cs|
  {
    if cs != [] {
      var next := Step(s, cs[0]).next;
      assert next.tick >= s.tick + s.period;
      NeverFasterThanPeriod(next, cs[1..]);
      assert (|cs| - 1) * s.period + s.period == |cs| * s.period;
    }
  }

  /**
   With a sleep that blocks exactly as asked, the new reference is the later
   of "now" and one period past the old reference: an iteration that overran
   its period starts the next one from "now", so the lost time is never made up.
   */
  lemma ReferenceResetsToNow(s: ServerState, c: Readings)
    requires s.count < s.numSamples
    requires c.afterSleep == c.beforeSleep + Blocked(SleepRequest(s.tick, s.period, c.beforeSleep))
    ensures Step(s, c).next.tick == Max(c.beforeSleep, s.tick + s.period)
  {
  }

  /**
   A concrete run showing the drift: with a period of 10, a first iteration
   that takes 25 ticks is not compensated by the second, which does no work
   and still sleeps a whole period, ending at 35 instead of the schedule's 20.
   */
  lemma OverrunIsNotRecovered()
    ensures var s := ServerState(0, 3, 10, 0);
      var cs := [Readings(25, 25), Readings(25, 35)];
      && PacedRun(s, cs)
      && Run(s, cs).final.tick == 35
      && Run(s, cs).final.tick > s.tick + |cs| * s.period
  {
    var s := ServerState(0, 3, 10, 0);
    var cs := [Readings(25, 25), Readings(25, 35)];
    assert cs[1..] == [Readings(25, 35)];
    assert cs[1..][1..] == [];
  }
}
