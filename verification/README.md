# py_profiler in Dafny

A model of the `Profiler` event tracker of py_profiler, with proofs about it.
Callers mark the start and the end of named events. The profiler records how
long each event ran. It groups events that share a name and reduces each
group's durations to a summary: count, minimum, maximum, mean, median and
variance.

The repository has two near-identical copies of the profiler:
`python3/profiler/profiler.py` and `python2/profiler/profiler.py`. The
methods `start`, `stop`, `finished_events`, `finished_events_stats` and
`__save_finished_event` have the same bodies in both; only the type
annotations differ, and the python2 lines sit one line earlier. The `Event`
record is written differently: python3 declares it as a `@dataclass`
(python3 lines 33-42), python2 as a class with a hand-written `__init__`
(python2 lines 35-44). Both give the same four fields (`name`, `start_time`,
and `end_time` and `duration` defaulting to `None`), so one `Event` datatype
models both. Beyond that, the copies differ only in the reducer
`__get_stats_from_array`:

- python3 takes the variance from `statistics.variance`, the sample
  variance, which divides by `n - 1`;
- python2 takes it from `numpy.var`, the population variance, which
  divides by `n`.

Modules:

- `Wrappers` (`wrappers.dfy`): `Option`, the profiler's `None`-or-value.
- `Registry` (`registry.dfy`): the `Event` record and the state of running
  and finished events, with the `start` and `stop` transitions. It also has
  call traces (`Run`) for the properties that span many calls. It models both
  source files.
- `Statistics` (`statistics.dfy`): sum, min, max, mean, median (via an
  insertion sort) and variance with a `ddof` divisor, all over `seq<int>`
  with exact `real` results.
- `Summaries` (`summaries.dfy`): what `finished_events_stats` promises of
  each name's summary (`SummarisesEvents`), with the degrees of freedom of
  the variance as a parameter, shared by both versions.
- `Profiler3` (`profiler3.dfy`): the python3 reducer and
  `finished_events_stats`.
- `Profiler2` (`profiler2.dfy`): the python2 reducer and
  `finished_events_stats`, and how the two versions compare.

How the model treats the environment:

- The clock is an input. `start` and `stop` take the current time `now` as
  integer microseconds, standing in for `datetime.now()`.
- Tokens come from a counter, `nextToken`, that only increases. It stands in
  for `uuid.uuid4()`.
- The profiler state is an immutable value. `Start` and `Stop` return the
  new state together with their result.

The duration follows the code. `stop` stores `timedelta.microseconds`, the
microsecond field of the elapsed time. Python keeps that field in
`[0, 10^6)` and moves whole seconds into other fields. So the recorded
duration is `(end - start) mod 10^6`, and events of a second or more lose
their whole seconds. Dafny's `%` is Euclidean, which agrees with Python's
normalisation also for a clock that went backwards. `StartThenStop` and
`WholeSecondsDiscarded` prove the loss: events lasting a second or more are
under-reported.

`Valid` is the invariant of every reachable state:

- each running event is still running and has a token below the counter;
- each finished list is non-empty, and all of its events are finished and
  filed under their own name.

`Init` establishes it. `Start` and `Stop` preserve it, and
`EventsFromInit` shows it holds after any sequence of calls. Only
`FinishedEvents` and the `FinishedEventsStats` functions require it.

The sum of squared deviations is kept in integers as
`ScaledSquares(s, n, S) = Σ (n·dᵢ − S)²`, where `S` is the sum of `s` and
`n` its length, and `Variance(s, ddof) = ScaledSquares / (n² · (n − ddof))`.
`ScaledSquaresAsDeviations` proves that `ScaledSquares` equals
`n² · SqDev(s, S / n)`, where `SqDev(s, mu) = Σ (dᵢ − mu)²`, and
`VarianceIsTextbook` concludes that the variance is the textbook
`SqDev(s, Mean(s)) / (n − ddof)`.

The median is characterised without sorting by `IsMedian`: for an odd count
it is a value with at most half of the values on either side; for an even
count it is the average of a lower middle value (fewer than half below it)
and an upper middle value (fewer than half above it). `Median` meets
`IsMedian`, and `MedianUnique` shows that no other value does.

## Model

| member | source | states |
|---|---|---|
| `Registry.MicrosecondsOf` | python3/profiler/profiler.py:71-72 | the recorded duration lies in [0, 10^6), differs from the elapsed time by whole seconds, and equals it when the event took less than a second |
| `Registry.WholeSecondsDiscarded` | python2/profiler/profiler.py:70-71 | adding whole seconds to the elapsed time leaves the recorded duration unchanged |
| `Registry.Init` | python3/profiler/profiler.py:48-50 | a new profiler satisfies the invariant and holds no events |
| `Registry.Start` | python3/profiler/profiler.py:52-60 | adds exactly one running entry (no end time, no duration) under a token at or above the counter, never one already running; other running entries and `finished` are unchanged; the invariant is kept |
| `Registry.Finish` | python3/profiler/profiler.py:69-72 | the stopped event keeps its name and start time, gets `end_time = now` and the microsecond duration |
| `Registry.SaveFinishedEvent` | python3/profiler/profiler.py:99-103 | the event's name gains a list if it had none; the event is appended at the end of that list; every other name's list is unchanged |
| `Registry.Stop` | python3/profiler/profiler.py:62-74 | an unknown or already stopped token gives None and an unchanged state; otherwise the token leaves `running`, the finished event is returned and appended to its name's list, other names and the counter are unchanged, and the invariant is kept |
| `Registry.FinishedEvents` | python3/profiler/profiler.py:76-79 | returns the recorded finished events themselves; every name maps to a non-empty list of finished events that carry that name |
| `Registry.Durations` | python3/profiler/profiler.py:95 | the durations list has one entry per event, in the same order, equal to that event's duration |
| `Registry.SaveFinishedEventCount` | python2/profiler/profiler.py:98-102 | saving a finished event adds exactly one to the number of finished events |
| `Registry.RunKeepsValid` | python3/profiler/profiler.py:35-42 | from a valid state, every sequence of start and stop calls leads to a valid state |
| `Registry.RunExtendsFinished` | python3/profiler/profiler.py:99-103 | `finished` only grows: no name disappears and every list is a prefix of its later value, across any sequence of calls |
| `Registry.IssuedTokensIncrease` | python3/profiler/profiler.py:57-60 | the tokens returned by successive starts strictly increase, so they are pairwise distinct, and lie between the counter before and after the calls |
| `Registry.RunCountsStarts` | python2/profiler/profiler.py:56-58 | running plus finished events grow by exactly the number of start calls in any sequence of calls |
| `Registry.EventsFromInit` | python2/profiler/profiler.py:47-72 | from a new profiler, running plus finished events number the start calls made, and the state is valid |
| `Registry.StopTwice` | python3/profiler/profiler.py:66-68 | stopping a token a second time returns None, changes nothing, and the event is filed only once |
| `Registry.StopUnissued` | python3/profiler/profiler.py:66-67 | a token never handed out returns None and leaves the state unchanged |
| `Registry.StartThenStop` | python3/profiler/profiler.py:57-73 | start then stop files the event at the end of its name's list with `end_time` set and running entries restored; the duration equals the elapsed time when that lies in [0, 10^6) µs and is smaller when it is 10^6 µs or more |
| `Registry.StopsFileInStopOrder` | python2/profiler/profiler.py:98-102 | two stops in a row append their events in stop order, to one list for a shared name or each to its own list otherwise |
| `Statistics.Min` | python3/profiler/profiler.py:114 | the result is an element of the list and no element is smaller |
| `Statistics.Max` | python3/profiler/profiler.py:115 | the result is an element of the list and no element is larger |
| `Statistics.Mean` | python3/profiler/profiler.py:116 | the mean times the length is the sum, and the mean lies between the minimum and the maximum |
| `Statistics.Sort` | python2/profiler/profiler.py:116 | the result is sorted and a permutation of the input |
| `Statistics.Median` | python3/profiler/profiler.py:117 | the median meets `IsMedian`: the middle value for an odd count, the average of the lower and upper middle values for an even count; it lies between the minimum and the maximum |
| `Statistics.MedianUnique` | python2/profiler/profiler.py:116 | a value meets `IsMedian` exactly when it equals `Median`, so the median is determined by the values alone and not by the sorting |
| `Statistics.Variance` | python3/profiler/profiler.py:119 | the variance is non-negative and is zero exactly when all values are equal |
| `Statistics.ScaledSquaresAsDeviations` | python3/profiler/profiler.py:119 | the integer `ScaledSquares` is `n²` times the sum of squared deviations from `total / n` |
| `Statistics.VarianceIsTextbook` | python3/profiler/profiler.py:119 | the variance is the sum of squared deviations from the mean divided by `n - ddof` |
| `Statistics.SampleVersusPopulation` | python2/profiler/profiler.py:118 | the sample variance times `n - 1` equals the population variance times `n`, so the population variance is never the larger |
| `Profiler3.StatsFromArray` | python3/profiler/profiler.py:105-120 | no values give no keys; one value gives only `value`, equal to it; two or more give `len = n`, the least and greatest values, the mean, the median (`IsMedian`), and the sample variance (non-negative, zero exactly for equal values) |
| `Profiler3.FinishedEventsStats` | python3/profiler/profiler.py:81-97 | one summary per finished name and no other; each is non-empty, holds the single duration as `value` exactly when the name has one event, and otherwise counts the events and gives the minimum, maximum, mean, median and sample variance of that name's durations in order, with extremes in [0, 10^6) |
| `Profiler3.ThreeDurations` | python3/profiler/profiler.py:112-120 | durations 10, 20, 30 give count 3, min 10, max 30, mean 20, median 20 and sample variance 100 |
| `Profiler2.StatsFromArray` | python2/profiler/profiler.py:104-119 | as the python3 reducer, but with the population variance (divide by `n`) |
| `Profiler2.FinishedEventsStats` | python2/profiler/profiler.py:80-96 | one summary per finished name and no other, with the same per-name guarantees as python3 but the population variance of the durations; each summary equals python3's for that name except for a variance that is never larger |
| `Profiler2.StatsFollowStops` | python2/profiler/profiler.py:92-96 | the statistics see only finished events: a start or a failed stop leaves them equal, and a successful stop adds or changes only the stopped event's name |
| `Profiler2.VersionsAgreeButVariance` | python2/profiler/profiler.py:111-119 | the two versions give the same summary except for the variance, where python2's population variance never exceeds python3's sample variance |
| `Profiler2.ThreeDurations` | python2/profiler/profiler.py:111-119 | durations 10, 20, 30 give count 3, min 10, max 30, mean 20, median 20 and population variance 200/3 |

## Left out

- `stdev` (both versions): it is the square root of the variance and needs
  floating-point square roots. The summary has no `stdev` field. The
  variance it comes from is modelled.
- Floating point: `float(values[0])`, `statistics.mean`, `statistics.median`,
  `statistics.variance`, `numpy.mean`, `numpy.median` and `numpy.var` are
  exact `real` values here. Python's rounding to the nearest double is not
  modelled, and neither is whether `statistics.mean` returns an `int` or a
  `float`.
- `datetime.now()` is the `now` parameter. Nothing in the model makes the
  clock monotone, just as nothing in the code does.
- `uuid.uuid4()` is a counter. Random identifiers are unique only with high
  probability, which a proof cannot use. The counter makes uniqueness exact
  (`IssuedTokensIncrease`).
- Aliasing: Python returns the internal `finished` dict from
  `finished_events`, and `stop` returns the very `Event` object it filed, so
  a caller could change the profiler's state through them. Values here are
  immutable.
- Calling `finished_events_stats` twice with no start or stop in between
  gives equal results. In the model this holds by construction, because the
  function is pure. `Profiler2.StatsFollowStops` states the stronger fact:
  only a successful stop changes the statistics.
- The `multiprocessing.Event` import is unused by the code.
- Key order: python3 dicts keep insertion order, so `finished_events` and
  `finished_events_stats` list names in the order of each name's first stop
  (python3 lines 94 and 101-102). The model's `map`s are unordered and say
  nothing about that order. python2 dicts have no defined order.
- `python3/example/example.py`, `python2/example/example.py`, `main.py` and
  `python2/main.py` are call-site glue (a sleep loop and printing) and are
  not part of this model.
- The reducer's empty-list case is modelled (`NoStats`), though
  `finished_events_stats` never reaches it: every name in `finished` has at
  least one event.
