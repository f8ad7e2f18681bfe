/**
 What `finished_events_stats` promises of each name's summary, shared by both
 profiler versions: they differ only in the degrees of freedom `ddof` of the
 variance (1 for python3's `statistics.variance`, 0 for python2's
 `numpy.var`).
 */
module Summaries {
  import opened Wrappers
  import opened Statistics
  import opened Registry

  /** Every event carries a duration. */
  predicate HasDurations(events: seq<Event>)
  {
    forall i :: 0 <= i < |events| ==> events[i].duration.Some?
  }

  /** An aggregate's extremes, mean, median and variance are those of `d`. */
  ghost predicate DescribesDurations(r: Summary, d: seq<int>, ddof: nat)
    requires r.Aggregate? && |d| > ddof
  {
    && IsMin(d, r.min)
    && IsMax(d, r.max)
    && IsMean(d, r.mean)
    && IsMedian(d, r.median)
    && r.variance == Variance(d, ddof)
  }

  /** What the reducer `__get_stats_from_array` returns for the values `d`:
      no keys for none, the value itself for one, and for two or more the
      count and the statistics of `d`. */
  ghost predicate SummaryOf(r: Summary, d: seq<int>, ddof: nat)
  {
    && (r.NoStats? <==> |d| == 0)
    && (r.Single? <==> |d| == 1)
    && (r.Single? ==> r.value == d[0] as real)
    && (r.Aggregate? ==> r.len == |d| && |d| > ddof && DescribesDurations(r, d, ddof))
  }

  /** What `finished_events_stats` promises of one name's summary: it is
      never empty, it holds the single duration exactly when the name has
      one event, and otherwise it counts the events and describes their
      durations: the extremes are recorded durations, so they lie in
      [0, 10^6), and the mean, median and variance are those of the
      durations. */
  ghost predicate SummarisesEvents(r: Summary, events: seq<Event>, ddof: nat)
  {
    && !r.NoStats?
    && (r.Single? <==> |events| == 1)
    && (r.Single? ==> |events| > 0 && events[0].duration.Some? && r.value == events[0].duration.value as real)
    && (r.Aggregate? ==>
          && r.len == |events|
          && 0 <= r.min <= r.max < MicrosPerSecond
          && HasDurations(events)
          && |events| > ddof
          && DescribesDurations(r, Durations(events), ddof))
  }

  /** A summary of the durations `d` of a name's finished events, in order,
      summarises the events. */
  lemma Summarised(events: seq<Event>, d: seq<int>, r: Summary, ddof: nat)
    requires |events| > 0
    requires forall i :: 0 <= i < |events| ==> events[i].IsFinished()
    requires |d| == |events| && forall i :: 0 <= i < |events| ==> events[i].duration == Some(d[i])
    requires SummaryOf(r, d, ddof)
    ensures SummarisesEvents(r, events, ddof)
  {
    assert forall i :: 0 <= i < |d| ==> 0 <= d[i] < MicrosPerSecond;
    if r.Aggregate? {
      assert IsMin(d, r.min) && IsMax(d, r.max);
      DurationsAre(events, d);
    }
  }

  /** `d` lists the events' durations in order, so it is `Durations(events)`. */
  lemma DurationsAre(events: seq<Event>, d: seq<int>)
    requires |d| == |events| && forall i :: 0 <= i < |events| ==> events[i].duration == Some(d[i])
    ensures HasDurations(events) && Durations(events) == d
  {
    assert HasDurations(events);
    var e := Durations(events);
    assert forall i :: 0 <= i < |d| ==> e[i] == d[i];
  }
}
