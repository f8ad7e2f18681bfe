/**
 The python2 profiler's statistics: `finished_events_stats` and the reducer
 `__get_stats_from_array`, which takes mean, median, variance and standard
 deviation from numpy. `numpy.var` is the population variance: the sum of
 squared deviations divided by `n`.
 */
module Profiler2 {
  import opened Wrappers
  import opened Statistics
  import opened Registry
  import opened Summaries
  import Profiler3

  /** Summary of one name's durations: nothing for no durations, the single
      duration as `value`, and for two or more the count, extremes, mean,
      median and population variance. */
  function StatsFromArray(values: seq<int>): (r: Summary)
    ensures r == NoStats <==> |values| == 0
    ensures r.Single? <==> |values| == 1
    ensures r.Single? ==> r.value == values[0] as real
    ensures r.Aggregate? <==> |values| >= 2
    ensures r.Aggregate? ==>
      && r.len == |values|
      && IsMin(values, r.min)
      && IsMax(values, r.max)
      && IsMean(values, r.mean)
      && r.min as real <= r.mean <= r.max as real
      && r.min as real <= r.median <= r.max as real
      && CountBelow(values, r.median) <= |values| / 2
      && CountAbove(values, r.median) <= |values| / 2
      && IsMedian(values, r.median)
      && r.variance == Variance(values, 0)
      && r.variance >= 0.0
      && (r.variance == 0.0 <==> Constant(values))
  {
    if |values| == 0 then NoStats
    else if |values| == 1 then Single(values[0] as real)
    else Aggregate(|values|, Min(values), Max(values), Mean(values), Median(values), Variance(values, 0))
  }

  /** Statistics per name over the durations finished so far; each equals
      python3's except for a variance no larger than python3's. */
  function FinishedEventsStats(p: Profiler): (r: map<string, Summary>)
    requires Valid(p)
    ensures r.Keys == p.finished.Keys
    ensures forall n :: n in r ==> SummarisesEvents(r[n], p.finished[n], 0)
    ensures forall n :: n in r ==> AgreeButVariance(r[n], Profiler3.FinishedEventsStats(p)[n])
  {
    FinishedVersionsAgree(p);
    map n | n in p.finished :: StatsFromArray(Durations(p.finished[n]))
  }

  /** A python2 summary equals the python3 one except that an aggregate may
      carry a variance no larger than python3's. */
  predicate AgreeButVariance(two: Summary, three: Summary)
  {
    if three.Aggregate? then
      && two.Aggregate?
      && two.(variance := three.variance) == three
      && two.variance <= three.variance
    else two == three
  }

  /** Every name's python2 summary summarises the name's events with the
      population variance and agrees with its python3 summary but for the
      variance. */
  lemma FinishedVersionsAgree(p: Profiler)
    requires Valid(p)
    ensures forall n :: n in p.finished ==>
      && AgreeButVariance(StatsFromArray(Durations(p.finished[n])), Profiler3.StatsFromArray(Durations(p.finished[n])))
      && SummarisesEvents(StatsFromArray(Durations(p.finished[n])), p.finished[n], 0)
  {
    forall n | n in p.finished
      ensures AgreeButVariance(StatsFromArray(Durations(p.finished[n])), Profiler3.StatsFromArray(Durations(p.finished[n])))
      ensures SummarisesEvents(StatsFromArray(Durations(p.finished[n])), p.finished[n], 0)
    {
      var d := Durations(p.finished[n]);
      assert SummaryOf(StatsFromArray(d), d, 0);
      Summarised(p.finished[n], d, StatsFromArray(d), 0);
      VersionsAgreeButVariance(d);
    }
  }

  /** The statistics only see finished events: starting an event, or
      stopping a token that is not running, leaves them as they were, and a
      successful stop changes only the entry of the stopped event's name. */
  lemma StatsFollowStops(p: Profiler, name: string, token: Token, now: int)
    requires Valid(p)
    ensures FinishedEventsStats(Start(p, name, now).state) == FinishedEventsStats(p)
    ensures token !in p.running ==> FinishedEventsStats(Stop(p, token, now).state) == FinishedEventsStats(p)
    ensures token in p.running ==>
      var after := FinishedEventsStats(Stop(p, token, now).state);
      var before := FinishedEventsStats(p);
      && after.Keys == before.Keys + {p.running[token].name}
      && (forall n :: n in before && n != p.running[token].name ==> after[n] == before[n])
  {
  }

  /** Both versions agree on count, extremes, mean and median; they differ
      in the variance: python3 reports the sample variance and python2 the
      population variance, which is never the larger of the two (see
      `SampleVersusPopulation` for the exact relation). */
  lemma VersionsAgreeButVariance(values: seq<int>)
    ensures AgreeButVariance(StatsFromArray(values), Profiler3.StatsFromArray(values))
    ensures |values| < 2 ==> StatsFromArray(values) == Profiler3.StatsFromArray(values)
    ensures |values| >= 2 ==>
      var two, three := StatsFromArray(values), Profiler3.StatsFromArray(values);
      && two.(variance := three.variance) == three
      && three.variance == Variance(values, 1)
      && two.variance == Variance(values, 0)
      && two.variance <= three.variance
  {
    if |values| >= 2 {
      var two, three := StatsFromArray(values), Profiler3.StatsFromArray(values);
      assert two.(variance := three.variance) == three;
      assert two.variance == Variance(values, 0) && three.variance == Variance(values, 1);
      SampleVersusPopulation(values);
    }
  }

  /** Three events named "a" lasting 10, 20 and 30 microseconds summarise to
      count 3, extremes 10 and 30, mean and median 20, and population
      variance (100 + 0 + 100) / 3 = 200 / 3. */
  lemma ThreeDurations()
    ensures StatsFromArray([10, 20, 30]) == Aggregate(3, 10, 30, 20.0, 20.0, 200.0 / 3.0)
  {
    TenTwentyThirty();
    VarianceTenTwentyThirty();
  }
}
