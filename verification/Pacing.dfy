/** The drift-corrected 4 ms poll loop of the SDL input backend; times in microseconds. */
module Pacing {

  const POLLING_PERIOD := 4000

  /**
   One turn of the loop: time from waking to the sample, time from the sample to the
   clock reading, and how late `sleep_until` returns.
   */
  datatype Pass = Pass(before: nat, after: nat, oversleep: nat)

  function Max(a: int, b: int): int {
    if a < b then b else a
  }

  /** `next_poll` at the top of pass `n`. */
  function NextPoll(start: int, passes: seq<Pass>, n: nat): int
    requires n <= |passes|
    decreases n, 0
  {
    if n == 0 then start
    else Max(NextPoll(start, passes, n - 1) + POLLING_PERIOD,
             SampleTime(start, passes, n - 1) + passes[n - 1].after)
  }

  /** The instant of sample `n`. */
  function SampleTime(start: int, passes: seq<Pass>, n: nat): int
    requires n < |passes|
    decreases n, 1
  {
    NextPoll(start, passes, n) + (if n == 0 then 0 else passes[n - 1].oversleep) + passes[n].before
  }

  /** The loop, with the turns the scheduler deals out as input. */
  method PollLoop(start: int, passes: seq<Pass>) returns (samples: seq<int>)
    ensures |samples| == |passes|
    ensures forall n: nat :: n < |passes| ==> samples[n] == SampleTime(start, passes, n)
  {
    samples := [];
    var nextPoll, wake := start, start;
    var i := 0;
    while i < |passes|
      invariant 0 <= i <= |passes| == i + (|passes| - |samples|)
      invariant forall n: nat :: n < i ==> samples[n] == SampleTime(start, passes, n)
      invariant nextPoll == NextPoll(start, passes, i)
      invariant wake == nextPoll + if i == 0 then 0 else passes[i - 1].oversleep
    {
      var sampled := wake + passes[i].before;
      samples := samples + [sampled];
      var now := sampled + passes[i].after;
      nextPoll := nextPoll + POLLING_PERIOD;
      if nextPoll < now {
        nextPoll := now;
      }
      wake := nextPoll + passes[i].oversleep;
      i := i + 1;
    }
  }

  /** Deadlines are at least 4 ms apart, and never before an earlier sample. */
  lemma {:induction false} DeadlineSpacing(start: int, passes: seq<Pass>, i: nat, j: nat)
    requires i <= j <= |passes|
    ensures NextPoll(start, passes, j) >= NextPoll(start, passes, i) + (j - i) * 4000
  {
    if i < j {
      DeadlineSpacing(start, passes, i, j - 1);
    }
  }

  /** Sample `n` never comes before start + n * 4 ms. */
  lemma NeverEarly(start: int, passes: seq<Pass>, n: nat)
    requires n < |passes|
    ensures SampleTime(start, passes, n) >= start + n * 4000
  {
    DeadlineSpacing(start, passes, 0, n);
  }

  /** No catch-up burst: any m >= 2 consecutive samples span at least (m - 2) * 4 ms. */
  lemma NoCatchUpBurst(start: int, passes: seq<Pass>, first: nat, m: nat)
    requires 2 <= m && first + m <= |passes|
    ensures SampleTime(start, passes, first + m - 1) - SampleTime(start, passes, first) >= (m - 2) * 4000
  {
    DeadlineSpacing(start, passes, first + 1, first + m - 1);
    assert NextPoll(start, passes, first + 1) >= SampleTime(start, passes, first);
  }

  /** The bound is sharp: an oversleep is made up, so (m - 1) * 4 ms are not guaranteed for any m. */
  lemma BurstBoundIsSharp(m: nat)
    requires m >= 2
    ensures exists passes: seq<Pass> :: |passes| == m &&
              SampleTime(0, passes, m - 1) - SampleTime(0, passes, 0) == (m - 2) * 4000
  {
    var late := Pass(4000, 0, 0);
    var passes := seq(m, i => if i == 0 then late else Pass(0, 0, 0));
    assert SampleTime(0, passes, 0) == 4000;
    OnTime(passes, m - 1);
  }

  lemma {:induction false} OnTime(passes: seq<Pass>, n: nat)
    requires 1 <= n < |passes|
    requires passes[0] == Pass(4000, 0, 0)
    requires forall i :: 1 <= i < |passes| ==> passes[i] == Pass(0, 0, 0)
    ensures NextPoll(0, passes, n) == SampleTime(0, passes, n) == n * 4000
  {
    if n > 1 {
      OnTime(passes, n - 1);
    } else {
      assert NextPoll(0, passes, 0) == 0;
    }
  }

  /** Pass `k` leaves no more than 4 ms between its deadline and the end of its work. */
  predicate InTime(passes: seq<Pass>, k: nat)
    requires k < |passes|
  {
    Lateness(passes, k) + passes[k].before + passes[k].after <= 4000
  }

  /** How late the loop wakes for pass `k`. */
  function Lateness(passes: seq<Pass>, k: nat): nat
    requires k < |passes|
  {
    if k == 0 then 0 else passes[k - 1].oversleep
  }

  /**
   No drift: as long as every pass is done within 4 ms of its deadline, deadline n is exactly
   start + n * 4 ms, and sample n is late by its own oversleep and its own work only.
   */
  lemma {:induction false} NoDrift(start: int, passes: seq<Pass>, n: nat)
    requires n < |passes| && forall k :: 0 <= k < n ==> InTime(passes, k)
    ensures NextPoll(start, passes, n) == start + n * 4000
    ensures SampleTime(start, passes, n) == start + n * 4000 + Lateness(passes, n) + passes[n].before
  {
    if n > 0 {
      NoDrift(start, passes, n - 1);
      assert InTime(passes, n - 1);
    }
  }
}
