/** Deviation of sends from their cadence (`TimingDeviationMetric` in src/metrics.rs), on exact
    durations. */
module TimingDeviation {
  import opened Wrappers

  /** The samples due for a history of ticks: one per gap. */
  function Deviations(expected: int, ticks: seq<int>): seq<int> {
    if |ticks| < 2 then []
    else Deviations(expected, ticks[..|ticks| - 1]) + [ticks[|ticks| - 1] - ticks[|ticks| - 2] - expected]
  }

  function Sum(samples: seq<int>): int {
    if samples == [] then 0 else Sum(samples[..|samples| - 1]) + samples[|samples| - 1]
  }

  class TimingDeviationMetric {
    const expectedInterval: int
    var lastTick: Option<int>
    var metric: seq<int>
    var summary: seq<int>
    ghost var ticks: seq<int>

    ghost predicate Valid()
      reads this
    {
      && metric == summary == Deviations(expectedInterval, ticks)
      && lastTick == if ticks == [] then None else Some(ticks[|ticks| - 1])
    }

    constructor (expectedInterval: int)
      ensures Valid() && ticks == [] && this.expectedInterval == expectedInterval
    {
      this.expectedInterval := expectedInterval;
      lastTick, metric, summary, ticks := None, [], [], [];
    }

    method Record(now: int)
      requires Valid()
      modifies this
      ensures Valid() && ticks == old(ticks) + [now]
    {
      if lastTick.Some? {
        var deviation := now - lastTick.value - expectedInterval;
        metric := metric + [deviation];
        summary := summary + [deviation];
      }
      lastTick := Some(now);
      ticks := ticks + [now];
      assert ticks[..|ticks| - 1] == old(ticks);
    }
  }

  lemma {:induction false} DeviationOfEachGap(expected: int, ticks: seq<int>)
    ensures |Deviations(expected, ticks)| == if ticks == [] then 0 else |ticks| - 1
    ensures forall k :: 0 <= k < |ticks| - 1 ==> Deviations(expected, ticks)[k] == ticks[k + 1] - ticks[k] - expected
  {
    if |ticks| >= 2 {
      DeviationOfEachGap(expected, ticks[..|ticks| - 1]);
    }
  }

  /** The samples telescope: together they say how far the whole stream drifted from its cadence, so
      no stall is hidden and none is counted twice. */
  lemma {:induction false} DeviationsTelescope(expected: int, ticks: seq<int>)
    requires ticks != []
    ensures Sum(Deviations(expected, ticks)) == ticks[|ticks| - 1] - ticks[0] - (|ticks| - 1) * expected
  {
    if |ticks| >= 2 {
      var shorter := ticks[..|ticks| - 1];
      DeviationsTelescope(expected, shorter);
      var all := Deviations(expected, ticks);
      assert all[..|all| - 1] == Deviations(expected, shorter);
      assert (|ticks| - 1) * expected == (|shorter| - 1) * expected + expected;
    }
  }

  /** Each gap gives one sample, its own, in order, and no stall is hidden or counted twice: the samples
      add up to how far the whole stream drifted from its cadence. */
  lemma GapsAddUp(expected: int, ticks: seq<int>)
    requires ticks != []
    ensures |Deviations(expected, ticks)| == |ticks| - 1
    ensures forall k :: 0 <= k < |ticks| - 1 ==> Deviations(expected, ticks)[k] == ticks[k + 1] - ticks[k] - expected
    ensures Sum(Deviations(expected, ticks)) == ticks[|ticks| - 1] - ticks[0] - (|ticks| - 1) * expected
  {
    DeviationOfEachGap(expected, ticks);
    DeviationsTelescope(expected, ticks);
  }
}
