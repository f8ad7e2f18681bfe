/**
 The python3 profiler's statistics: `finished_events_stats` and the reducer
 `__get_stats_from_array`, which takes mean, median and variance from the
 `statistics` module. `statistics.variance` is the sample variance: the sum
 of squared deviations divided by `n - 1`.
 */
module Profiler3 {
  import opened Wrappers
  import opened Statistics
  import opened Registry
  import opened Summaries

  /** Summary of one name's durations: nothing for no durations, the single
      duration as `value`, and for two or more the count, extremes, mean,
      median and sample variance. */
  function StatsFromArray(values: seq<int>): (r: Summary)
    ensures r == NoStats <==> |values| == 0
    ensures r.Single? <==> |values| == 1
    ensures r.Single? ==> r.value == values[0] as real
    ensures r.Aggregate? <==> |values| >= 2
    ensures r.Aggregate? ==>
      && r.len == |values|
      && IsMin(values, r.min)
      && IsMax(values, r.max)
      && IsMean(values, r.mean)
      && r.min as real <= r.mean <= r.max as real
      && r.min as real <= r.median <= r.max as real
      && CountBelow(values, r.median) <= |values| / 2
      && CountAbove(values, r.median) <= |values| / 2
      && IsMedian(values, r.median)
      && r.variance == Variance(values, 1)
      && r.variance >= 0.0
      && (r.variance == 0.0 <==> Constant(values))
  {
    if |values| == 0 then NoStats
    else if |values| == 1 then Single(values[0] as real)
    else Aggregate(|values|, Min(values), Max(values), Mean(values), Median(values), Variance(values, 1))
  }

  /** Statistics per name over the durations finished so far. */
  function FinishedEventsStats(p: Profiler): (r: map<string, Summary>)
    requires Valid(p)
    ensures r.Keys == p.finished.Keys
    ensures forall n :: n in r ==> SummarisesEvents(r[n], p.finished[n], 1)
  {
    AllSummarised(p);
    map n | n in p.finished :: StatsFromArray(Durations(p.finished[n]))
  }

  lemma AllSummarised(p: Profiler)
    requires Valid(p)
    ensures forall n :: n in p.finished ==> SummarisesEvents(StatsFromArray(Durations(p.finished[n])), p.finished[n], 1)
  {
    forall n | n in p.finished
      ensures SummarisesEvents(StatsFromArray(Durations(p.finished[n])), p.finished[n], 1)
    {
      var d := Durations(p.finished[n]);
      assert SummaryOf(StatsFromArray(d), d, 1);
      Summarised(p.finished[n], d, StatsFromArray(d), 1);
    }
  }

  /** Three events named "a" lasting 10, 20 and 30 microseconds summarise to
      count 3, extremes 10 and 30, mean and median 20, and sample variance
      (100 + 0 + 100) / 2 = 100. */
  lemma ThreeDurations()
    ensures StatsFromArray([10, 20, 30]) == Aggregate(3, 10, 30, 20.0, 20.0, 100.0)
  {
    TenTwentyThirty();
    VarianceTenTwentyThirty();
  }
}
