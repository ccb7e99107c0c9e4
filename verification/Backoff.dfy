/** Back-off arithmetic and the attempt counter of a client
    (internal/loader/configuration_client_manager.go and updateClientBackoffStatus in
    internal/loader/configuration_setting_loader.go). Durations are in nanoseconds. */
module Backoff {
  import opened Clock

  const MIN_BACKOFF_DURATION: nat := 30 * SECOND
  const MAX_BACKOFF_DURATION: nat := 600 * SECOND
  const JITTER_RATIO: real := 0.25
  const SAFE_SHIFT_LIMIT: nat := 63

  function Pow2(n: nat): nat {
    if n == 0 then 1 else 2 * Pow2(n - 1)
  }

  function Min(a: int, b: int): int { if a < b then a else b }

  /** Conversion of a float to an integer type drops the fraction. */
  function Truncate(x: real): int {
    if x >= 0.0 then x.Floor else -((-x).Floor)
  }

  /** `random` is what the generator returned, in [0, 1). */
  function Jitter(duration: nat, random: real): int {
    var jitter := duration as real * JITTER_RATIO;
    duration + Truncate(random * (2.0 * jitter) - jitter)
  }

  /** The delay before jitter, in milliseconds, for a second or later failure. */
  function UnjitteredMilliseconds(failedAttempts: nat): nat
    requires failedAttempts >= 2
  {
    var ms := 30_000 * Pow2(Min(failedAttempts - 1, SAFE_SHIFT_LIMIT));
    if ms > 600_000 then 600_000 else ms
  }

  function CalculateBackoffDuration(failedAttempts: int, random: real): int {
    if failedAttempts <= 1 then MIN_BACKOFF_DURATION
    else Jitter(UnjitteredMilliseconds(failedAttempts) * MILLISECOND, random)
  }

  // ---------------------------------------------------------------- bounds

  lemma {:induction false} Pow2Monotone(m: nat, n: nat)
    requires m <= n
    ensures Pow2(m) <= Pow2(n)
  {
    if m < n {
      Pow2Monotone(m, n - 1);
    }
  }

  /** The base delay the design names: 30s doubled per failure and capped at 600s. */
  function BaseDelay(failedAttempts: nat): nat
    requires failedAttempts >= 1
  {
    Min(MIN_BACKOFF_DURATION * Pow2(failedAttempts - 1), MAX_BACKOFF_DURATION)
  }

  /** Neither the shift limit nor the overflow guard changes the base delay. */
  lemma UnjitteredIsBaseDelay(failedAttempts: nat)
    requires failedAttempts >= 2
    ensures UnjitteredMilliseconds(failedAttempts) * MILLISECOND == BaseDelay(failedAttempts)
  {
    assert Pow2(5) == 32;
    if failedAttempts - 1 >= SAFE_SHIFT_LIMIT {
      Pow2Monotone(5, SAFE_SHIFT_LIMIT);
      Pow2Monotone(5, failedAttempts - 1);
    }
  }

  lemma BaseDelayMonotone(m: nat, n: nat)
    requires 1 <= m <= n
    ensures MIN_BACKOFF_DURATION <= BaseDelay(m) <= BaseDelay(n) <= MAX_BACKOFF_DURATION
  {
    Pow2Monotone(0, m - 1);
    Pow2Monotone(m - 1, n - 1);
  }

  /** A random draw moves a duration by at most a quarter. */
  lemma JitterWithinQuarter(duration: nat, random: real)
    requires 0.0 <= random < 1.0
    ensures 3 * duration <= 4 * Jitter(duration, random) <= 5 * duration
  {
    var jitter := duration as real * JITTER_RATIO;
    var width := 2.0 * jitter;
    assert 0.0 <= random * width <= width;
    var x := random * width - jitter;
    assert -jitter <= x <= jitter;
    assert -jitter <= Truncate(x) as real <= jitter;
  }

  /** The delay always lies within a quarter of the base delay, and in [30s, 750s]. */
  lemma BackoffBounds(failedAttempts: int, random: real)
    requires 0.0 <= random < 1.0
    ensures var d := CalculateBackoffDuration(failedAttempts, random);
            && MIN_BACKOFF_DURATION <= d <= 750 * SECOND
            && (failedAttempts >= 1 ==> 3 * BaseDelay(failedAttempts) <= 4 * d <= 5 * BaseDelay(failedAttempts))
  {
    if failedAttempts >= 2 {
      UnjitteredIsBaseDelay(failedAttempts);
      JitterWithinQuarter(BaseDelay(failedAttempts), random);
      assert Pow2(1) == 2;
      BaseDelayMonotone(2, failedAttempts);
    } else if failedAttempts == 1 {
      assert Pow2(0) == 1;
    }
  }

  /** The nominal ten-minute cap is a cap on the base delay only. With jitter the delay stays
      within it exactly up to the fifth failure, or when the draw adds less than one
      nanosecond, that is, from the lower half of the random range. */
  lemma CapHoldsExactly(failedAttempts: int, random: real)
    requires 0.0 <= random < 1.0
    ensures CalculateBackoffDuration(failedAttempts, random) <= MAX_BACKOFF_DURATION
            <==> || failedAttempts <= 5
                 || random * (MAX_BACKOFF_DURATION / 2) as real < (MAX_BACKOFF_DURATION / 4) as real + 1.0
  {
    if failedAttempts >= 2 {
      UnjitteredIsBaseDelay(failedAttempts);
      BaseDelayUpToCap(failedAttempts);
      JitterWithinQuarter(BaseDelay(failedAttempts), random);
      if failedAttempts > 5 {
        var jitter := MAX_BACKOFF_DURATION as real * JITTER_RATIO;
        assert jitter == (MAX_BACKOFF_DURATION / 4) as real && 2.0 * jitter == (MAX_BACKOFF_DURATION / 2) as real;
      }
    }
  }

  lemma BaseDelayUpToCap(failedAttempts: nat)
    requires failedAttempts >= 1
    ensures if failedAttempts <= 5 then BaseDelay(failedAttempts) <= 480 * SECOND
            else BaseDelay(failedAttempts) == MAX_BACKOFF_DURATION
  {
    assert Pow2(4) == 16 && Pow2(5) == 32;
    if failedAttempts <= 5 {
      Pow2Monotone(failedAttempts - 1, 4);
    } else {
      Pow2Monotone(5, failedAttempts - 1);
    }
  }

  /** The sixth failure in a row can exceed the cap. */
  lemma JitterCanExceedTheCap()
    ensures CalculateBackoffDuration(6, 0.9) > MAX_BACKOFF_DURATION
  {
    CapHoldsExactly(6, 0.9);
  }

  // ---------------------------------------------------------------- the attempt counter

  /** The counter after one more attempt: positive counts failures, negative successes. */
  function AttemptsAfter(failedAttempts: int, successful: bool): int {
    if successful then (if failedAttempts > 0 then 0 else failedAttempts) - 1
    else (if failedAttempts < 0 then 0 else failedAttempts) + 1
  }

  function Attempts(history: seq<bool>): int {
    if history == [] then 0
    else AttemptsAfter(Attempts(history[..|history| - 1]), history[|history| - 1])
  }

  /** n is the length of the longest suffix of equal outcomes. */
  ghost predicate IsTrailingRun(history: seq<bool>, n: nat)
    requires history != []
  {
    var last := history[|history| - 1];
    && 1 <= n <= |history|
    && (forall k :: |history| - n <= k < |history| ==> history[k] == last)
    && (n < |history| ==> history[|history| - n - 1] != last)
  }

  /** The counter is plus the length of the trailing run of failures, or minus the length
      of the trailing run of successes. */
  lemma {:induction false} AttemptsIsTrailingRun(history: seq<bool>)
    ensures history == [] <==> Attempts(history) == 0
    ensures history != [] ==>
              var a := Attempts(history);
              if history[|history| - 1] then a < 0 && IsTrailingRun(history, -a)
              else a > 0 && IsTrailingRun(history, a)
  {
    if history != [] {
      var earlier := history[..|history| - 1];
      AttemptsIsTrailingRun(earlier);
      assert forall k :: 0 <= k < |earlier| ==> history[k] == earlier[k];
    }
  }
}
